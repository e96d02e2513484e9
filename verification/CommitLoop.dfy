/**
 The vote loop over the picks of one production cycle, and runs of cycles: which vertices become
 committed, where the scan cursor rests, and when it leaves a round behind that nothing settled.
 */
module CommitLoop {
  import opened Seqs
  import opened Dag
  import opened Wave
  import opened Projection
  import opened WaveScan
  import FullDag

  /** A pick becomes a block, fails with the loop going on to the next one, or ends the loop. */
  datatype Fate = Landed | Failed | Stopped

  /**
   What the loop meets at one pick: the vertices that other validators' blocks brought by then, and the
   pick's fate.
   */
  datatype Visit = Visit(brought: set<Hash>, fate: Fate)

  /** How many picks the loop looks at: all of them, or up to the first one that ends it. */
  function Visited(visits: seq<Visit>): (n: nat)
    ensures n <= |visits|
    ensures forall k :: 0 <= k < n - 1 ==> !visits[k].fate.Stopped?
    ensures n < |visits| ==> n > 0 && visits[n - 1].fate.Stopped?
  {
    if visits == [] then 0
    else if visits[0].fate.Stopped? then 1
    else 1 + Visited(visits[1..])
  }

  /** Blocks are folded in before every pick but the first, whose tip was read together with the fold. */
  function Brought(visits: seq<Visit>, k: nat): set<Hash>
    requires k < |visits|
  {
    if k == 0 then {} else visits[k].brought
  }

  /** The committed set after the first `n` picks. */
  function After(picks: seq<Pick>, visits: seq<Visit>, committed: set<Hash>, n: nat): set<Hash>
    requires n <= |visits| == |picks|
  {
    if n == 0 then committed
    else
      After(picks, visits, committed, n - 1) + Brought(visits, n - 1) +
        if visits[n - 1].fate.Landed? then Elements(picks[n - 1].projection) else {}
  }

  lemma {:induction false} AfterMember(picks: seq<Pick>, visits: seq<Visit>, committed: set<Hash>, n: nat, h: Hash)
    requires n <= |visits| == |picks|
    ensures h in After(picks, visits, committed, n) <==>
            || h in committed
            || (exists k :: 0 <= k < n && h in Brought(visits, k))
            || (exists k :: 0 <= k < n && visits[k].fate.Landed? && h in picks[k].projection)
  {
    if n > 0 {
      AfterMember(picks, visits, committed, n - 1, h);
    }
  }

  lemma CommittedMembers(picks: seq<Pick>, visits: seq<Visit>, committed: set<Hash>, n: nat)
    requires n <= |visits| == |picks|
    ensures forall h :: h in After(picks, visits, committed, n) <==>
                        || h in committed
                        || (exists k :: 0 < k < n && h in visits[k].brought)
                        || (exists k :: 0 <= k < n && visits[k].fate.Landed? && h in picks[k].projection)
  {
    forall h ensures h in After(picks, visits, committed, n) <==>
                     || h in committed
                     || (exists k :: 0 < k < n && h in visits[k].brought)
                     || (exists k :: 0 <= k < n && visits[k].fate.Landed? && h in picks[k].projection)
    {
      AfterMember(picks, visits, committed, n, h);
      assert forall k :: 0 <= k < n && h in Brought(visits, k) ==> 0 < k < n && h in visits[k].brought;
      assert forall k :: 0 < k < n && h in visits[k].brought ==> h in Brought(visits, k);
    }
  }

  /** Where the cursor rests: on the last visited pick, or one past it when that pick landed. */
  function CursorAfter(picks: seq<Pick>, visits: seq<Visit>, scanned: nat): nat
    requires |visits| == |picks|
  {
    var n := Visited(visits);
    if n == 0 then scanned else picks[n - 1].round + if visits[n - 1].fate.Landed? then 1 else 0
  }

  lemma {:induction false} VisitedWhile(visits: seq<Visit>, n: nat)
    requires n <= |visits| && forall k :: 0 <= k < n ==> !visits[k].fate.Stopped?
    ensures Visited(visits) >= n
    ensures n == |visits| ==> Visited(visits) == n
    ensures n < |visits| && visits[n].fate.Stopped? ==> Visited(visits) == n + 1
  {
    if n > 0 {
      forall k | 0 <= k < n - 1 ensures !visits[1..][k].fate.Stopped? {
        assert visits[1..][k] == visits[k + 1];
      }
      VisitedWhile(visits[1..], n - 1);
    }
  }

  /** The loop itself: it pins the cursor on every pick it visits before that pick's fate is known. */
  method CommitPicks(picks: seq<Pick>, visits: seq<Visit>, committed: set<Hash>, scanned: nat)
    returns (committed': set<Hash>, cursor: nat)
    requires |visits| == |picks|
    ensures committed' == After(picks, visits, committed, Visited(visits))
    ensures cursor == CursorAfter(picks, visits, scanned)
    ensures picks == [] ==> cursor == scanned
    ensures picks != [] ==>
              var last := Visited(visits) - 1;
              cursor == if visits[last].fate.Landed? then picks[last].round + 1 else picks[last].round
    ensures forall h :: h in committed' <==>
                        || h in committed
                        || (exists k :: 0 < k < Visited(visits) && h in visits[k].brought)
                        || (exists k :: 0 <= k < Visited(visits) && visits[k].fate.Landed? && h in picks[k].projection)
  {
    committed', cursor := committed, scanned;
    for k := 0 to |picks|
      invariant forall i :: 0 <= i < k ==> !visits[i].fate.Stopped?
      invariant committed' == After(picks, visits, committed, k)
      invariant cursor == if k == 0 then scanned
                          else picks[k - 1].round + if visits[k - 1].fate.Landed? then 1 else 0
    {
      VisitedWhile(visits, k);
      if k > 0 {
        committed' := committed' + visits[k].brought;
      }
      cursor := picks[k].round;
      match visits[k].fate {
        case Landed =>
          committed' := committed' + Elements(picks[k].projection);
          cursor := picks[k].round + 1;
        case Failed =>
        case Stopped =>
          CommittedMembers(picks, visits, committed, Visited(visits));
          return;
      }
    }
    VisitedWhile(visits, |picks|);
    CommittedMembers(picks, visits, committed, |picks|);
  }

  // ----- one cycle

  /** Accepted blocks contain their history: a vertex brought in has its parents committed by then. */
  ghost predicate BlocksComplete(universe: Vertices, picks: seq<Pick>, visits: seq<Visit>, committed: set<Hash>)
    requires |visits| == |picks|
  {
    forall k, h, p | 0 <= k < Visited(visits) && h in Brought(visits, k) && h in universe && p in universe[h].parents ::
      p in After(picks, visits, committed, k) + Brought(visits, k)
  }

  /** Every pick that failed with the loop going on has been committed by somebody else's block. */
  ghost predicate FailuresCovered(picks: seq<Pick>, visits: seq<Visit>)
    requires |visits| == |picks|
  {
    forall j :: 0 <= j < Visited(visits) - 1 && visits[j].fate.Failed? ==>
      exists k :: 0 <= k < Visited(visits) && picks[j].leader in Brought(visits, k)
  }

  /** Every round the cursor left is settled by what is committed at the end of the cycle. */
  ghost predicate LeavesSettled(
    d: Dag, validators: seq<Author>, committed: set<Hash>, covered: set<Hash>, from: nat, cursor: nat)
    requires validators != [] && ValidDag(d)
  {
    forall round :: from <= round < cursor ==> Resolved(d, validators, committed, covered, round)
  }

  lemma {:induction false} AfterGrows(picks: seq<Pick>, visits: seq<Visit>, committed: set<Hash>, m: nat, n: nat)
    requires m <= n <= |visits| == |picks|
    ensures committed <= After(picks, visits, committed, m) <= After(picks, visits, committed, n)
    ensures m < n ==> Brought(visits, m) <= After(picks, visits, committed, n)
  {
    if m < n {
      AfterGrows(picks, visits, committed, m, n - 1);
    } else if n > 0 {
      AfterGrows(picks, visits, committed, n - 1, n - 1);
    }
  }

  lemma PickFacts(d: Dag, validators: seq<Author>, committed: set<Hash>, picks: seq<Pick>, j: nat)
    requires validators != [] && ValidDag(d) && PicksOk(d, validators, committed, picks) && j < |picks|
    ensures PickOk(d, validators, committed, committed + PickedSet(picks[..j]), picks[j])
    ensures picks[j].leader in picks[j].projection && picks[j].leader !in committed
  {
    TakenLeaderIsProjected(d, picks[j].leader, committed + PickedSet(picks[..j]), picks[j].projection);
  }

  /** A vertex belongs to one pick of a cycle at most. */
  lemma ProjectedOnce(d: Dag, validators: seq<Author>, committed: set<Hash>, picks: seq<Pick>, j: nat, k: nat, h: Hash)
    requires validators != [] && ValidDag(d) && PicksOk(d, validators, committed, picks)
    requires j < |picks| && k < |picks| && h in Elements(picks[j].projection) && h in Elements(picks[k].projection)
    ensures j == k && h !in committed
  {
    if j < k {
      PicksDisjoint(d, validators, committed, picks, j, k);
    } else if k < j {
      PicksDisjoint(d, validators, committed, picks, k, j);
    } else {
      PickFacts(d, validators, committed, picks, j);
    }
  }

  /** A pick that did not land adds nothing: what the cycle holds of its projection came from other blocks. */
  lemma ProjectedIsBrought(
    d: Dag, validators: seq<Author>, committed: set<Hash>, picks: seq<Pick>, visits: seq<Visit>, j: nat, h: Hash)
    requires validators != [] && ValidDag(d) && PicksOk(d, validators, committed, picks) && |visits| == |picks|
    requires j < |picks| && !visits[j].fate.Landed? && h in Elements(picks[j].projection)
    ensures h in After(picks, visits, committed, Visited(visits)) <==>
            exists k :: 0 <= k < Visited(visits) && h in Brought(visits, k)
  {
    ProjectedOnce(d, validators, committed, picks, j, j, h);
    AfterMember(picks, visits, committed, Visited(visits), h);
    forall k | 0 <= k < Visited(visits) && h in picks[k].projection ensures k == j {
      ProjectedOnce(d, validators, committed, picks, j, k, h);
    }
  }

  /** So its round, which the cursor leaves, is not settled. */
  lemma UncoveredFailureLeavesOpen(
    d: Dag, validators: seq<Author>, committed: set<Hash>, picks: seq<Pick>, covered: set<Hash>, j: nat)
    requires validators != [] && ValidDag(d) && PicksOk(d, validators, committed, picks)
    requires j < |picks| && picks[j].leader !in covered
    ensures !Resolved(d, validators, committed, covered, picks[j].round)
  {
    PickFacts(d, validators, committed, picks, j);
  }

  /** A projection whose leader somebody else committed is committed as a whole. */
  lemma CoveredProjection(
    universe: Vertices, d: Dag, validators: seq<Author>, committed: set<Hash>, picks: seq<Pick>, visits: seq<Visit>,
    j: nat)
    requires validators != [] && PartOf(universe, d) && PicksOk(d, validators, committed, picks) && |visits| == |picks|
    requires BlocksComplete(universe, picks, visits, committed)
    requires j < Visited(visits) && !visits[j].fate.Landed?
    requires exists k :: 0 <= k < Visited(visits) && picks[j].leader in Brought(visits, k)
    ensures Elements(picks[j].projection) <= After(picks, visits, committed, Visited(visits))
  {
    var leader, covered := picks[j].leader, committed + PickedSet(picks[..j]);
    var final := After(picks, visits, committed, Visited(visits));
    PickFacts(d, validators, committed, picks, j);
    ProjectedIsBrought(d, validators, committed, picks, visits, j, leader);
    var closed := set h | h in final && Met(d.vertices, [leader], covered, h);
    ReachesSelf(d.vertices, covered, leader);
    assert leader in [leader];
    forall h, p | h in closed && h in d.vertices && h !in covered && p in d.vertices[h].parents ensures p in closed {
      ProjectedIsBrought(d, validators, committed, picks, visits, j, h);
      BroughtParent(universe, picks, visits, committed, h, p);
      MetParent(d, leader, covered, h, p);
    }
    ClosedContainsProjection(d, leader, covered, closed);
  }

  lemma ClosedContainsProjection(d: Dag, leader: Hash, covered: set<Hash>, closed: set<Hash>)
    requires leader in closed
    requires forall h, p :: h in closed && h in d.vertices && h !in covered && p in d.vertices[h].parents ==>
              p in closed
    ensures Uncommitted(d, [leader], covered) <= closed
  {
    forall h | h in Uncommitted(d, [leader], covered) ensures h in closed {
      var root :| root in [leader] && Reaches(d.vertices, covered, root, h);
      var path :| |path| >= 1 && path[0] == root && path[|path| - 1] == h && Walk(d.vertices, covered, path);
      ClosedContainsReached(d.vertices, covered, path, closed);
    }
  }

  lemma BroughtParent(
    universe: Vertices, picks: seq<Pick>, visits: seq<Visit>, committed: set<Hash>, h: Hash, p: Hash)
    requires |visits| == |picks| && BlocksComplete(universe, picks, visits, committed)
    requires exists k :: 0 <= k < Visited(visits) && h in Brought(visits, k)
    requires h in universe && p in universe[h].parents
    ensures p in After(picks, visits, committed, Visited(visits))
  {
    var k :| 0 <= k < Visited(visits) && h in Brought(visits, k);
    AfterGrows(picks, visits, committed, k, Visited(visits));
  }

  lemma MetParent(d: Dag, leader: Hash, covered: set<Hash>, h: Hash, p: Hash)
    requires Met(d.vertices, [leader], covered, h)
    requires h in d.vertices && h !in covered && p in d.vertices[h].parents
    ensures Met(d.vertices, [leader], covered, p)
  {
    var root :| root in [leader] && Reaches(d.vertices, covered, root, h);
    ReachesParent(d.vertices, covered, root, h, p);
  }

  /** With all failures covered, every projection the cursor passed is committed. */
  lemma PassedProjection(
    universe: Vertices, d: Dag, validators: seq<Author>, committed: set<Hash>, picks: seq<Pick>, visits: seq<Visit>,
    j: nat)
    requires validators != [] && PartOf(universe, d) && PicksOk(d, validators, committed, picks) && |visits| == |picks|
    requires BlocksComplete(universe, picks, visits, committed) && FailuresCovered(picks, visits)
    requires j < Visited(visits) && (j < Visited(visits) - 1 || visits[j].fate.Landed?)
    ensures Elements(picks[j].projection) <= After(picks, visits, committed, Visited(visits))
  {
    if visits[j].fate.Landed? {
      forall h | h in picks[j].projection ensures h in After(picks, visits, committed, Visited(visits)) {
        AfterMember(picks, visits, committed, Visited(visits), h);
      }
    } else {
      CoveredProjection(universe, d, validators, committed, picks, visits, j);
    }
  }

  lemma CoveredMeansSettled(
    universe: Vertices, d: Dag, validators: seq<Author>, committed: set<Hash>, from: nat, stoppedAt: nat,
    picks: seq<Pick>, visits: seq<Visit>, round: nat)
    requires validators != [] && PartOf(universe, d) && |visits| == |picks|
    requires ScanInv(d, validators, committed, from, stoppedAt, picks)
    requires BlocksComplete(universe, picks, visits, committed) && FailuresCovered(picks, visits)
    requires from <= round < CursorAfter(picks, visits, stoppedAt)
    ensures Resolved(d, validators, committed, After(picks, visits, committed, Visited(visits)), round)
  {
    var n := Visited(visits);
    if AtLastPick(picks, n, round) {
      LandedMeansSettled(d, validators, committed, picks, visits, n - 1, After(picks, visits, committed, n));
    } else {
      PassedBefore(picks, visits, MaxRound(d), from, stoppedAt, round);
      EarlierMeansSettled(universe, d, validators, committed, from, stoppedAt, picks, visits, round);
    }
  }

  lemma LandedMeansSettled(
    d: Dag, validators: seq<Author>, committed: set<Hash>, picks: seq<Pick>, visits: seq<Visit>, j: nat,
    covered: set<Hash>)
    requires validators != [] && ValidDag(d) && PicksOk(d, validators, committed, picks) && |visits| == |picks|
    requires j < Visited(visits) && visits[j].fate.Landed?
    requires covered == After(picks, visits, committed, Visited(visits))
    ensures Resolved(d, validators, committed, covered, picks[j].round)
  {
    forall h | h in picks[j].projection ensures h in covered {
      AfterMember(picks, visits, committed, Visited(visits), h);
    }
    PickSettles(d, validators, committed, picks, covered, j);
  }

  lemma EarlierMeansSettled(
    universe: Vertices, d: Dag, validators: seq<Author>, committed: set<Hash>, from: nat, stoppedAt: nat,
    picks: seq<Pick>, visits: seq<Visit>, round: nat)
    requires validators != [] && PartOf(universe, d) && PicksOk(d, validators, committed, picks) && |visits| == |picks|
    requires AllSettled(d, validators, committed, picks, from, stoppedAt)
    requires BlocksComplete(universe, picks, visits, committed) && FailuresCovered(picks, visits)
    requires from <= round < stoppedAt && Before(picks, Visited(visits), round)
    ensures Resolved(d, validators, committed, After(picks, visits, committed, Visited(visits)), round)
  {
    AfterGrows(picks, visits, committed, 0, Visited(visits));
    PassedPicks(universe, d, validators, committed, picks, visits, round);
    SettledRound(
      d, validators, committed, picks, from, stoppedAt, After(picks, visits, committed, Visited(visits)), round);
  }

  ghost predicate AtLastPick(picks: seq<Pick>, n: nat, round: nat)
  {
    0 < n <= |picks| && round == picks[n - 1].round
  }

  ghost predicate Ascending(picks: seq<Pick>)
  {
    forall i, j :: 0 <= i < j < |picks| ==> picks[i].round < picks[j].round
  }

  /** The cursor passed the round before it came to the last visited pick, if there is one. */
  ghost predicate Before(picks: seq<Pick>, n: nat, round: nat)
  {
    n <= |picks| && (n == 0 ==> picks == []) && forall k :: 0 <= k < |picks| && picks[k].round <= round ==> k < n - 1
  }

  lemma PassedBefore(picks: seq<Pick>, visits: seq<Visit>, top: nat, from: nat, stoppedAt: nat, round: nat)
    requires |visits| == |picks| && Ascending(picks) && PicksWithin(picks, from, top, stoppedAt)
    requires round < CursorAfter(picks, visits, stoppedAt) && !AtLastPick(picks, Visited(visits), round)
    ensures round < stoppedAt && Before(picks, Visited(visits), round)
  {
  }

  lemma SettledRound(
    d: Dag, validators: seq<Author>, committed: set<Hash>, picks: seq<Pick>, start: nat, end: nat, wider: set<Hash>,
    round: nat)
    requires validators != [] && ValidDag(d) && AllSettled(d, validators, committed, picks, start, end)
    requires start <= round < end && committed + PickedSet(UpTo(picks, round)) <= wider
    ensures Resolved(d, validators, committed, wider, round)
  {
    assert SettledBy(d, validators, committed, picks, round);
    WiderCoverSettles(d, validators, committed, committed + PickedSet(UpTo(picks, round)), wider, round);
  }

  lemma PickSettles(d: Dag, validators: seq<Author>, committed: set<Hash>, picks: seq<Pick>, covered: set<Hash>, j: nat)
    requires validators != [] && ValidDag(d) && PicksOk(d, validators, committed, picks)
    requires j < |picks| && Elements(picks[j].projection) <= covered
    ensures Resolved(d, validators, committed, covered, picks[j].round)
  {
    PickFacts(d, validators, committed, picks, j);
    assert picks[j].leader in Elements(picks[j].projection);
  }

  lemma PassedPicks(
    universe: Vertices, d: Dag, validators: seq<Author>, committed: set<Hash>, picks: seq<Pick>, visits: seq<Visit>,
    round: nat)
    requires validators != [] && PartOf(universe, d) && PicksOk(d, validators, committed, picks) && |visits| == |picks|
    requires BlocksComplete(universe, picks, visits, committed) && FailuresCovered(picks, visits)
    requires Before(picks, Visited(visits), round)
    ensures PickedSet(UpTo(picks, round)) <= After(picks, visits, committed, Visited(visits))
  {
    forall h | h in PickedSet(UpTo(picks, round)) ensures h in After(picks, visits, committed, Visited(visits)) {
      var k := PickedUpTo(picks, round, h);
      PassedProjection(universe, d, validators, committed, picks, visits, k);
    }
  }

  lemma PickedUpTo(picks: seq<Pick>, round: nat, h: Hash) returns (k: nat)
    requires h in PickedSet(UpTo(picks, round))
    ensures k < |picks| && picks[k].round <= round && h in Elements(picks[k].projection)
  {
    var early := UpTo(picks, round);
    PickedSetMember(early, h);
    var m :| 0 <= m < |early| && h in early[m].projection;
    assert early[m] in picks;
    k :| 0 <= k < |picks| && picks[k] == early[m];
  }

  lemma WiderCoverSettles(
    d: Dag, validators: seq<Author>, committed: set<Hash>, covered: set<Hash>, wider: set<Hash>, round: nat)
    requires validators != [] && ValidDag(d) && covered <= wider
    requires Resolved(d, validators, committed, covered, round)
    ensures Resolved(d, validators, committed, wider, round)
  {
  }

  lemma CoveredMeansClosed(
    universe: Vertices, d: Dag, validators: seq<Author>, committed: set<Hash>, picks: seq<Pick>, visits: seq<Visit>)
    requires validators != [] && PartOf(universe, d) && PicksOk(d, validators, committed, picks) && |visits| == |picks|
    requires BlocksComplete(universe, picks, visits, committed) && FailuresCovered(picks, visits)
    requires AncestorClosed(universe, committed)
    ensures AncestorClosed(universe, After(picks, visits, committed, Visited(visits)))
  {
    var n := Visited(visits);
    var final := After(picks, visits, committed, n);
    AfterGrows(picks, visits, committed, 0, n);
    forall h, p | h in final && h in universe && p in universe[h].parents ensures p in final {
      AfterMember(picks, visits, committed, n, h);
      if h in committed {
        assert p in committed;
      } else if exists k :: 0 <= k < n && h in Brought(visits, k) {
        BroughtParent(universe, picks, visits, committed, h, p);
      } else {
        var k :| 0 <= k < n && visits[k].fate.Landed? && h in picks[k].projection;
        LandedParent(universe, d, validators, committed, picks, visits, k, h, p);
      }
    }
  }

  lemma LandedParent(
    universe: Vertices, d: Dag, validators: seq<Author>, committed: set<Hash>, picks: seq<Pick>, visits: seq<Visit>,
    k: nat, h: Hash, p: Hash)
    requires validators != [] && PartOf(universe, d) && PicksOk(d, validators, committed, picks) && |visits| == |picks|
    requires BlocksComplete(universe, picks, visits, committed) && FailuresCovered(picks, visits)
    requires k < Visited(visits) && visits[k].fate.Landed?
    requires h in picks[k].projection && h in universe && p in universe[h].parents
    ensures p in After(picks, visits, committed, Visited(visits))
  {
    var n, covered := Visited(visits), committed + PickedSet(picks[..k]);
    PickFacts(d, validators, committed, picks, k);
    AfterGrows(picks, visits, committed, 0, n);
    ParentOfProjected(universe, d, picks[k], covered, h, p);
    if p in PickedSet(picks[..k]) {
      PickedSetMember(picks[..k], p);
      var i :| 0 <= i < k && p in picks[..k][i].projection;
      assert p in Elements(picks[i].projection);
      PassedProjection(universe, d, validators, committed, picks, visits, i);
    } else if p !in committed {
      PassedProjection(universe, d, validators, committed, picks, visits, k);
    }
  }

  lemma ParentOfProjected(universe: Vertices, d: Dag, pick: Pick, covered: set<Hash>, h: Hash, p: Hash)
    requires PartOf(universe, d) && Elements(pick.projection) == Uncommitted(d, [pick.leader], covered)
    requires forall g :: !Gap(d, [pick.leader], covered, g)
    requires h in pick.projection && h in universe && p in universe[h].parents
    ensures p in covered || p in Elements(pick.projection)
  {
    assert h in Elements(pick.projection);
    assert universe[h] == d.vertices[h];
    MetParent(d, pick.leader, covered, h, p);
    assert !Gap(d, [pick.leader], covered, p);
  }

  /**
   What one cycle leaves behind. Every round the cursor left is settled exactly when each pick that
   failed with the loop going on has been committed by somebody else's block; then the committed set
   also keeps the parents of its members.
   */
  lemma CycleSettles(
    universe: Vertices, d: Dag, validators: seq<Author>, committed: set<Hash>, from: nat, stoppedAt: nat,
    picks: seq<Pick>, visits: seq<Visit>)
    requires validators != [] && PartOf(universe, d) && |visits| == |picks|
    requires ScanInv(d, validators, committed, from, stoppedAt, picks)
    requires AncestorClosed(universe, committed) && BlocksComplete(universe, picks, visits, committed)
    ensures var cursor := CursorAfter(picks, visits, stoppedAt);
            var final := After(picks, visits, committed, Visited(visits));
            && from <= cursor
            && (LeavesSettled(d, validators, committed, final, from, cursor) <==> FailuresCovered(picks, visits))
            && (FailuresCovered(picks, visits) ==> AncestorClosed(universe, final))
  {
    var cursor := CursorAfter(picks, visits, stoppedAt);
    var final := After(picks, visits, committed, Visited(visits));
    if FailuresCovered(picks, visits) {
      forall round | from <= round < cursor ensures Resolved(d, validators, committed, final, round) {
        CoveredMeansSettled(universe, d, validators, committed, from, stoppedAt, picks, visits, round);
      }
      CoveredMeansClosed(universe, d, validators, committed, picks, visits);
    } else {
      var j := UncoveredFailure(d, validators, committed, from, stoppedAt, picks, visits);
    }
  }

  /** A failure nobody covers: a round that the cursor left and that the cycle did not settle. */
  lemma UncoveredFailure(
    d: Dag, validators: seq<Author>, committed: set<Hash>, from: nat, stoppedAt: nat, picks: seq<Pick>,
    visits: seq<Visit>)
    returns (j: nat)
    requires validators != [] && ValidDag(d) && |visits| == |picks| && !FailuresCovered(picks, visits)
    requires ScanInv(d, validators, committed, from, stoppedAt, picks)
    ensures j < |picks| && from <= picks[j].round < CursorAfter(picks, visits, stoppedAt)
    ensures !Resolved(d, validators, committed, After(picks, visits, committed, Visited(visits)), picks[j].round)
  {
    var n := Visited(visits);
    j :| 0 <= j < n - 1 && visits[j].fate.Failed? && !exists k :: 0 <= k < n && picks[j].leader in Brought(visits, k);
    PickFacts(d, validators, committed, picks, j);
    ProjectedIsBrought(d, validators, committed, picks, visits, j, picks[j].leader);
    UncoveredFailureLeavesOpen(d, validators, committed, picks, After(picks, visits, committed, n), j);
    RoundPassed(picks, visits, stoppedAt, j);
  }

  lemma {:induction false} RoundPassed(picks: seq<Pick>, visits: seq<Visit>, stoppedAt: nat, j: nat)
    requires |visits| == |picks| && Ascending(picks) && j < Visited(visits) - 1
    ensures picks[j].round < CursorAfter(picks, visits, stoppedAt)
  {
    assert picks[j].round < picks[Visited(visits) - 1].round;
  }

  /**
   Without blocks from others during the cycle: all settled and closed exactly when no failed pick is
   followed by a visited one.
   */
  lemma UndisturbedCycle(
    universe: Vertices, d: Dag, validators: seq<Author>, committed: set<Hash>, from: nat, stoppedAt: nat,
    picks: seq<Pick>, visits: seq<Visit>)
    requires validators != [] && PartOf(universe, d) && |visits| == |picks|
    requires ScanInv(d, validators, committed, from, stoppedAt, picks) && AncestorClosed(universe, committed)
    requires NothingBrought(visits)
    ensures var cursor := CursorAfter(picks, visits, stoppedAt);
            var final := After(picks, visits, committed, Visited(visits));
            && LeavesSettled(d, validators, committed, final, from, cursor) && AncestorClosed(universe, final)
            <==> NoFailureInside(visits)
  {
    CycleSettles(universe, d, validators, committed, from, stoppedAt, picks, visits);
    NoFailureInsideIsCovered(picks, visits);
  }

  ghost predicate NothingBrought(visits: seq<Visit>)
  {
    forall k :: 0 <= k < |visits| ==> Brought(visits, k) == {}
  }

  ghost predicate NoFailureInside(visits: seq<Visit>)
  {
    forall j :: 0 <= j < Visited(visits) - 1 ==> !visits[j].fate.Failed?
  }

  lemma NoFailureInsideIsCovered(picks: seq<Pick>, visits: seq<Visit>)
    requires |visits| == |picks| && NothingBrought(visits)
    ensures FailuresCovered(picks, visits) <==> NoFailureInside(visits)
  {
  }

  // ----- a cycle that leaves a round behind

  /** What the scan finds on the full DAG: the leaders of rounds 1 and 2, each with what it adds. */
  function FullPicks(): seq<Pick>
  {
    [Pick(5, 1, [5]), Pick(10, 2, [4, 6, 7, 10])]
  }

  /** The conditions of a pick, for a leader found at its round. */
  ghost predicate Stands(d: Dag, validatorCount: nat, covered: set<Hash>, pick: Pick)
    requires ValidDag(d)
  {
    Commits(d, pick.leader, pick.round, validatorCount) && Projected(d, pick.leader, covered, pick.projection)
  }

  ghost predicate Projected(d: Dag, leader: Hash, covered: set<Hash>, projection: seq<Hash>)
  {
    && Canonical(d.vertices, projection)
    && Elements(projection) == Uncommitted(d, [leader], covered)
    && forall g :: !Gap(d, [leader], covered, g)
  }

  lemma FullLeadersCommit(d: Dag)
    requires FullDag.IsFull(d)
    ensures ValidDag(d) && Commits(d, 5, 1, 4) && Commits(d, 10, 2, 4)
  {
    FullDag.FullCommits(d, 5, 1);
    FullDag.FullCommits(d, 10, 2);
  }

  lemma FirstProjection(d: Dag)
    requires FullDag.IsFull(d)
    ensures Projected(d, 5, {}, [5])
  {
    ReachesSelf(d.vertices, {}, 5);
    assert 5 in [5] && Met(d.vertices, [5], {}, 5);
    forall h | Met(d.vertices, [5], {}, h) ensures h == 5 {
      MetInside(d, 5, {}, {5}, h);
    }
  }

  lemma MetInside(d: Dag, leader: Hash, covered: set<Hash>, closed: set<Hash>, h: Hash)
    requires leader in closed && Met(d.vertices, [leader], covered, h)
    requires forall h, p :: h in closed && h in d.vertices && h !in covered && p in d.vertices[h].parents ==>
              p in closed
    ensures h in closed
  {
    var root :| root in [leader] && Reaches(d.vertices, covered, root, h);
    var path :| |path| >= 1 && path[0] == root && path[|path| - 1] == h && Walk(d.vertices, covered, path);
    ClosedContainsReached(d.vertices, covered, path, closed);
  }

  lemma SecondOrder(d: Dag)
    requires FullDag.IsFull(d)
    ensures Canonical(d.vertices, [4, 6, 7, 10])
  {
  }

  lemma SecondProjection(d: Dag)
    requires FullDag.IsFull(d)
    ensures Projected(d, 10, {5}, [4, 6, 7, 10])
  {
    SecondOrder(d);
    forall h ensures Met(d.vertices, [10], {5}, h) <==> h in {4, 5, 6, 7, 10} {
      MetByTen(d, h);
    }
    assert {4, 5, 6, 7, 10} <= d.vertices.Keys;
  }

  lemma MetByTen(d: Dag, h: Hash)
    requires FullDag.IsFull(d)
    ensures Met(d.vertices, [10], {5}, h) <==> h in {4, 5, 6, 7, 10}
  {
    assert d.vertices[10].parents == FullDag.RoundHashes(1);
    ReachesSelf(d.vertices, {5}, 10);
    assert 10 in [10] && Met(d.vertices, [10], {5}, 10);
    if h / 4 == 1 {
      MetParent(d, 10, {5}, 10, h);
    }
    if Met(d.vertices, [10], {5}, h) {
      TenClosed(d);
      MetInside(d, 10, {5}, {4, 5, 6, 7, 10}, h);
    }
  }

  lemma TenClosed(d: Dag)
    requires FullDag.IsFull(d)
    ensures AncestorClosed(d.vertices, {4, 5, 6, 7, 10})
  {
    forall h, p | h in {4, 5, 6, 7, 10} && h in d.vertices && p in d.vertices[h].parents
      ensures p in {4, 5, 6, 7, 10}
    {
      assert h == 10 && p / 4 == 1;
    }
  }

  /** Two picks that stand, in the first two rounds, are what a scan of those rounds yields. */
  lemma TwoPicks(d: Dag, validators: seq<Author>, first: Pick, taken: set<Hash>, second: Pick)
    requires validators != [] && ValidDag(d) && first.round == 1 && second.round == 2 <= MaxRound(d)
    requires LeaderAt(d, validators, 1) == Some(first.leader) && LeaderAt(d, validators, 2) == Some(second.leader)
    requires first.projection != [] && second.projection != [] && Elements(first.projection) == taken
    requires Stands(d, |validators|, {}, first) && Stands(d, |validators|, taken, second)
    ensures ScanInv(d, validators, {}, 1, 3, [first, second])
  {
    FirstTaken(d, validators, first);
    OneTaken(first, second);
    SecondTaken(d, validators, first, second);
  }

  lemma OneTaken(first: Pick, second: Pick)
    ensures [] + [first] == [first] && [first] + [second] == [first, second]
    ensures {} + PickedSet([first]) == Elements(first.projection)
  {
    PickedSetSnoc([], first);
    assert [] + [first] == [first];
  }

  lemma FirstTaken(d: Dag, validators: seq<Author>, first: Pick)
    requires validators != [] && ValidDag(d) && first.round == 1 <= MaxRound(d)
    requires LeaderAt(d, validators, 1) == Some(first.leader)
    requires first.projection != [] && Stands(d, |validators|, {}, first)
    ensures ScanInv(d, validators, {}, 1, 2, [] + [first]) && PicksBelow([] + [first], 2)
  {
    assert {} + PickedSet([]) == {};
    TakeKeepsScanInv(d, validators, {}, 1, 2, [], first);
  }

  lemma SecondTaken(d: Dag, validators: seq<Author>, first: Pick, second: Pick)
    requires validators != [] && ValidDag(d) && second.round == 2 <= MaxRound(d)
    requires ScanInv(d, validators, {}, 1, 2, [first]) && PicksBelow([first], 2)
    requires LeaderAt(d, validators, 2) == Some(second.leader)
    requires second.projection != [] && Stands(d, |validators|, {} + PickedSet([first]), second)
    ensures ScanInv(d, validators, {}, 1, 3, [first] + [second])
  {
    TakeKeepsScanInv(d, validators, {}, 1, 3, [first], second);
  }

  /**
   The first block of a cycle is refused and the second one lands: the cursor leaves round 1 unsettled,
   and a block is on the chain whose leader's parent is not.
   */
  lemma RefusedBlockIsLeftBehind()
    ensures var d, visits := FullDag.Full(), [Visit({}, Failed), Visit({}, Landed)];
            && ValidDag(d) && ScanInv(d, FullDag.Schedule(), {}, 1, 3, FullPicks())
            && Visited(visits) == 2 && CursorAfter(FullPicks(), visits, 3) == 3
            && After(FullPicks(), visits, {}, 2) == {4, 6, 7, 10}
            && !Resolved(d, FullDag.Schedule(), {}, {4, 6, 7, 10}, 1)
            && !AncestorClosed(d.vertices, {4, 6, 7, 10})
  {
    FullFacts();
    FullScan(FullDag.Full(), FullDag.Schedule(), FullPicks()[0], FullPicks()[1]);
    RefusedSet([Visit({}, Failed), Visit({}, Landed)]);
    FirstPickOpen(FullDag.Full(), FullDag.Schedule());
    ParentLeftOut(FullDag.Full().vertices, {4, 6, 7, 10}, 10, 5);
  }

  lemma FullScan(d: Dag, validators: seq<Author>, first: Pick, second: Pick)
    requires ValidDag(d) && |validators| == 4 && MaxRound(d) == 4
    requires first == Pick(5, 1, [5]) && second == Pick(10, 2, [4, 6, 7, 10])
    requires LeaderAt(d, validators, 1) == Some(5) && LeaderAt(d, validators, 2) == Some(10)
    requires Stands(d, 4, {}, first) && Stands(d, 4, {5}, second)
    ensures ScanInv(d, validators, {}, 1, 3, [first, second])
  {
    TwoPicks(d, validators, first, {5}, second);
  }

  lemma FirstPickOpen(d: Dag, validators: seq<Author>)
    requires validators != [] && ValidDag(d) && ScanInv(d, validators, {}, 1, 3, FullPicks())
    ensures !Resolved(d, validators, {}, {4, 6, 7, 10}, 1)
  {
    UncoveredFailureLeavesOpen(d, validators, {}, FullPicks(), {4, 6, 7, 10}, 0);
  }

  lemma FullFacts()
    ensures var d, validators := FullDag.Full(), FullDag.Schedule();
            && ValidDag(d) && |validators| == 4 && MaxRound(d) == 4
            && LeaderAt(d, validators, 1) == Some(5) && LeaderAt(d, validators, 2) == Some(10)
            && Stands(d, 4, {}, Pick(5, 1, [5])) && Stands(d, 4, {5}, Pick(10, 2, [4, 6, 7, 10]))
            && 10 in d.vertices && 5 in d.vertices[10].parents
  {
    var d := FullDag.Full();
    FullDag.FullIsFull();
    FullDag.FullLeader(d, 1);
    FullDag.FullLeader(d, 2);
    FullLeadersCommit(d);
    FirstProjection(d);
    SecondProjection(d);
    FifthIsParent(d);
  }

  lemma FifthIsParent(d: Dag)
    requires FullDag.IsFull(d)
    ensures 10 in d.vertices && 5 in d.vertices[10].parents
  {
  }

  lemma ParentLeftOut(vertices: Vertices, members: set<Hash>, h: Hash, p: Hash)
    requires h in vertices && p in vertices[h].parents && h in members && p !in members
    ensures !AncestorClosed(vertices, members)
  {
  }

  lemma RefusedSet(visits: seq<Visit>)
    requires visits == [Visit({}, Failed), Visit({}, Landed)]
    ensures Visited(visits) == 2 && CursorAfter(FullPicks(), visits, 3) == 3
    ensures After(FullPicks(), visits, {}, 2) == {4, 6, 7, 10}
  {
    VisitedWhile(visits, 2);
    assert After(FullPicks(), visits, {}, 1) == {};
    assert Elements(FullPicks()[1].projection) == {4, 6, 7, 10};
  }

  // ----- runs of cycles

  /** What the loop carries from cycle to cycle. */
  datatype State = State(committed: set<Hash>, cursor: nat)

  /** One cycle: the DAG as gossip left it, the vertices folded in from others' blocks, the scan and the visits. */
  datatype Cycle = Cycle(view: Dag, folded: set<Hash>, picks: seq<Pick>, stoppedAt: nat, visits: seq<Visit>)

  ghost function Folded(s: State, c: Cycle): set<Hash>
  {
    s.committed + c.folded
  }

  ghost predicate CycleOk(universe: Vertices, validators: seq<Author>, s: State, c: Cycle)
  {
    && validators != [] && PartOf(universe, c.view) && |c.visits| == |c.picks|
    && (forall h, p :: h in c.folded && h in universe && p in universe[h].parents ==> p in Folded(s, c))
    && ScanInv(c.view, validators, Folded(s, c), s.cursor, c.stoppedAt, c.picks)
    && BlocksComplete(universe, c.picks, c.visits, Folded(s, c))
  }

  ghost function Next(s: State, c: Cycle): State
    requires |c.visits| == |c.picks|
  {
    State(After(c.picks, c.visits, Folded(s, c), Visited(c.visits)), CursorAfter(c.picks, c.visits, c.stoppedAt))
  }

  ghost predicate Run(universe: Vertices, validators: seq<Author>, states: seq<State>, cycles: seq<Cycle>)
  {
    && |states| == |cycles| + 1
    && AncestorClosed(universe, states[0].committed)
    && forall i :: 0 <= i < |cycles| ==>
         CycleOk(universe, validators, states[i], cycles[i]) && states[i + 1] == Next(states[i], cycles[i])
  }

  /** Cycle `i` settled every round that it moved the cursor over. */
  ghost predicate SettlesIts(validators: seq<Author>, s: State, c: Cycle)
    requires validators != [] && ValidDag(c.view) && |c.visits| == |c.picks|
  {
    LeavesSettled(c.view, validators, Folded(s, c), Next(s, c).committed, s.cursor, Next(s, c).cursor)
  }

  lemma CycleKeeps(universe: Vertices, validators: seq<Author>, s: State, c: Cycle)
    requires CycleOk(universe, validators, s, c) && AncestorClosed(universe, s.committed)
    ensures s.cursor <= Next(s, c).cursor && s.committed <= Next(s, c).committed
    ensures SettlesIts(validators, s, c) <==> FailuresCovered(c.picks, c.visits)
    ensures FailuresCovered(c.picks, c.visits) ==> AncestorClosed(universe, Next(s, c).committed)
  {
    CycleSettles(universe, c.view, validators, Folded(s, c), s.cursor, c.stoppedAt, c.picks, c.visits);
    AfterGrows(c.picks, c.visits, Folded(s, c), 0, Visited(c.visits));
  }

  lemma {:induction false} RunClosed(
    universe: Vertices, validators: seq<Author>, states: seq<State>, cycles: seq<Cycle>, n: nat)
    requires Run(universe, validators, states, cycles) && n <= |cycles|
    requires forall i :: 0 <= i < n ==> FailuresCovered(cycles[i].picks, cycles[i].visits)
    ensures AncestorClosed(universe, states[n].committed)
  {
    if n > 0 {
      RunClosed(universe, validators, states, cycles, n - 1);
      CycleKeeps(universe, validators, states[n - 1], cycles[n - 1]);
    }
  }

  lemma {:induction false} FirstUncovered(cycles: seq<Cycle>, n: nat) returns (first: nat)
    requires n < |cycles| && !Coverable(cycles[n])
    ensures first <= n && !Coverable(cycles[first]) && forall i :: 0 <= i < first ==> Coverable(cycles[i])
  {
    first := n;
    if i :| 0 <= i < n && !Coverable(cycles[i]) {
      first := FirstUncovered(cycles, i);
    }
  }

  ghost predicate Coverable(c: Cycle)
  {
    |c.visits| == |c.picks| ==> FailuresCovered(c.picks, c.visits)
  }

  /** Over a whole run: no cycle leaves a round unsettled exactly when every cycle's failures are covered. */
  lemma RunSettles(universe: Vertices, validators: seq<Author>, states: seq<State>, cycles: seq<Cycle>)
    requires Run(universe, validators, states, cycles)
    ensures (forall i :: 0 <= i < |cycles| ==> SettlesIts(validators, states[i], cycles[i])) <==>
            (forall i :: 0 <= i < |cycles| ==> FailuresCovered(cycles[i].picks, cycles[i].visits))
  {
    forall i | 0 <= i < |cycles| && !FailuresCovered(cycles[i].picks, cycles[i].visits)
      ensures exists k :: 0 <= k < |cycles| && !SettlesIts(validators, states[k], cycles[k])
    {
      var k := FirstUncovered(cycles, i);
      RunClosed(universe, validators, states, cycles, k);
      CycleKeeps(universe, validators, states[k], cycles[k]);
    }
    if forall i :: 0 <= i < |cycles| ==> FailuresCovered(cycles[i].picks, cycles[i].visits) {
      forall i | 0 <= i < |cycles| ensures SettlesIts(validators, states[i], cycles[i]) {
        RunClosed(universe, validators, states, cycles, i);
        CycleKeeps(universe, validators, states[i], cycles[i]);
      }
    }
  }

  /** The cycle that moved the cursor over a round, with what it committed still committed now. */
  lemma {:induction false} WhoSettled(
    universe: Vertices, validators: seq<Author>, states: seq<State>, cycles: seq<Cycle>, n: nat, round: nat)
    returns (i: nat)
    requires Run(universe, validators, states, cycles) && n <= |cycles|
    requires forall i :: 0 <= i < n ==> FailuresCovered(cycles[i].picks, cycles[i].visits)
    requires states[0].cursor <= round < states[n].cursor
    ensures i < n && states[i].cursor <= round < states[i + 1].cursor
    ensures states[i + 1].committed <= states[n].committed
    ensures Resolved(cycles[i].view, validators, Folded(states[i], cycles[i]), states[i + 1].committed, round)
  {
    RunClosed(universe, validators, states, cycles, n - 1);
    CycleKeeps(universe, validators, states[n - 1], cycles[n - 1]);
    if states[n - 1].cursor <= round {
      i := n - 1;
    } else {
      i := WhoSettled(universe, validators, states, cycles, n - 1, round);
    }
  }

  /**
   Fork safety over runs: a leader that commits in any validator's view, of a round this validator's cursor
   has passed, is committed here or lies in the history of the later wave that settled the round. It is enough
   that the view of the cycle that passed the round was complete that far.
   */
  lemma RunKeepsCommittedLeaders(
    c: Committee, universe: Vertices, other: Dag, validators: seq<Author>, states: seq<State>, cycles: seq<Cycle>,
    leader: Hash, round: nat) returns (i: nat)
    requires ValidCommittee(c) && AdmittedUniverse(c, universe) && LocalView(universe, other)
    requires Run(universe, validators, states, cycles) && |validators| == |c.validators|
    requires forall i :: 0 <= i < |cycles| ==> FailuresCovered(cycles[i].picks, cycles[i].visits)
    requires leader in universe && universe[leader].round == round
    requires universe[leader].author == ScheduledAuthor(validators, round)
    requires Commits(other, leader, round, |c.validators|)
    requires states[0].cursor <= round < states[|cycles|].cursor
    ensures i < |cycles| && states[i].cursor <= round < states[i + 1].cursor
    ensures CompleteView(universe, states[i], cycles[i], round) ==>
              Kept(cycles[i].view, validators, Folded(states[i], cycles[i]), states[|cycles|].committed, round, leader)
  {
    i := WhoSettled(universe, validators, states, cycles, |cycles|, round);
    var s, cycle := states[i], cycles[i];
    RunClosed(universe, validators, states, cycles, i);
    AfterGrows(cycle.picks, cycle.visits, Folded(s, cycle), 0, Visited(cycle.visits));
    if CompleteView(universe, s, cycle, round) {
      ScanNeverDropsCommittedLeader(
        c, universe, other, cycle.view, validators, leader, round, Folded(s, cycle), states[i + 1].committed);
    }
  }

  /** One vertex per author and round, parents at hand, and the round's wave seen through. */
  ghost predicate CompleteView(universe: Vertices, s: State, c: Cycle, round: nat)
  {
    LocalView(universe, c.view) && ParentsAtHand(c.view, Folded(s, c)) && MaxRound(c.view) >= round + 2
  }

  /**
   No leader is left behind: once a vertex two rounds above a leader committed anywhere is committed
   here, so is the leader.
   */
  lemma NoLeaderLeftBehind(
    c: Committee, universe: Vertices, other: Dag, validators: seq<Author>, states: seq<State>, cycles: seq<Cycle>,
    leader: Hash, round: nat, h: Hash)
    requires ValidCommittee(c) && AdmittedUniverse(c, universe) && LocalView(universe, other)
    requires Run(universe, validators, states, cycles)
    requires forall i :: 0 <= i < |cycles| ==> FailuresCovered(cycles[i].picks, cycles[i].visits)
    requires Commits(other, leader, round, |c.validators|)
    requires h in states[|cycles|].committed && h in universe && universe[h].round >= round + 2
    ensures leader in states[|cycles|].committed
  {
    RunClosed(universe, validators, states, cycles, |cycles|);
    CommittedLeaderIsRemembered(c, universe, other, leader, round, h);
    var path :| |path| >= 1 && path[0] == h && path[|path| - 1] == leader && Walk(universe, {}, path);
    ClosedContainsReached(universe, {}, path, states[|cycles|].committed);
  }
}
