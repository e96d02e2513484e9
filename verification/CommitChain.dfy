/**
 The chain that the vote loops of all validators extend together. What `CommitLoop` assumes of other
 validators' blocks is derived here from how those validators landed them.
 */
module CommitChain {
  import opened Seqs
  import opened Dag
  import opened WaveScan
  import opened CommitLoop

  /** The vertices of the blocks, by height. */
  type Chain = seq<set<Hash>>

  ghost function Between(chain: Chain, a: nat, b: nat): set<Hash>
    requires b <= |chain|
  {
    set i, h | a <= i < b && h in chain[i] :: h
  }

  ghost function Prefix(chain: Chain, n: nat): set<Hash>
    requires n <= |chain|
  {
    Between(chain, 0, n)
  }

  lemma BetweenJoins(chain: Chain, a: nat, b: nat, c: nat)
    requires a <= b <= c <= |chain|
    ensures Between(chain, a, b) + Between(chain, b, c) == Between(chain, a, c)
    ensures b < |chain| ==> Between(chain, b, b + 1) == chain[b]
    ensures Between(chain, b, b) == {}
  {
  }

  /** Every block among the first `n` holds the parents of its vertices, or they are in the blocks below. */
  ghost predicate Complete(universe: Vertices, chain: Chain, n: nat)
    requires n <= |chain|
  {
    forall i, h, p | 0 <= i < n && h in chain[i] && h in universe && p in universe[h].parents ::
        p in Prefix(chain, i + 1)
  }

  // ----- a cycle on the chain

  /** The height a validator knows after a visit. */
  function Left(visits: seq<Visit>, at: seq<nat>, k: nat): nat
    requires k < |visits| && k < |at|
  {
    at[k] + if visits[k].fate.Landed? then 1 else 0
  }

  /**
   One visit: the fold brings the blocks above the known height up to the tip, and a landed pick is the
   next block.
   */
  ghost predicate VisitOnChain(chain: Chain, start: nat, picks: seq<Pick>, visits: seq<Visit>, at: seq<nat>, k: nat)
    requires |at| == |visits| == |picks| && k < |visits|
  {
    var known := if k == 0 then start else Left(visits, at, k - 1);
    && known <= at[k] && Left(visits, at, k) <= |chain| && (k == 0 ==> at[k] == start)
    && Brought(visits, k) == Between(chain, known, at[k])
    && (visits[k].fate.Landed? ==> chain[at[k]] == Elements(picks[k].projection))
  }

  /**
   A cycle whose folds reach the tip: it starts from the first `start` blocks and is at height `at[k]`
   when it visits pick `k`.
   */
  ghost predicate OnChain(chain: Chain, start: nat, picks: seq<Pick>, visits: seq<Visit>, at: seq<nat>)
  {
    && |at| == |visits| == |picks| && start <= |chain|
    && (forall k :: 0 <= k < Visited(visits) ==> Left(visits, at, k) <= |chain|)
    && forall k :: 0 <= k < Visited(visits) ==> VisitOnChain(chain, start, picks, visits, at, k)
  }

  /** The committed set of the loop is the prefix of the chain that it knows. */
  lemma {:induction false} CommittedIsPrefix(
    chain: Chain, start: nat, picks: seq<Pick>, visits: seq<Visit>, at: seq<nat>, k: nat)
    requires OnChain(chain, start, picks, visits, at) && k < Visited(visits)
    ensures at[k] <= Left(visits, at, k) <= |chain|
    ensures After(picks, visits, Prefix(chain, start), k) + Brought(visits, k) == Prefix(chain, at[k])
    ensures start <= at[k] && After(picks, visits, Prefix(chain, start), k + 1) == Prefix(chain, Left(visits, at, k))
    ensures k > 0 ==> at[k - 1] <= at[k]
  {
    assert VisitOnChain(chain, start, picks, visits, at, k);
    if k > 0 {
      CommittedIsPrefix(chain, start, picks, visits, at, k - 1);
      BetweenJoins(chain, 0, Left(visits, at, k - 1), at[k]);
    } else {
      BetweenJoins(chain, 0, start, start);
    }
    if visits[k].fate.Landed? {
      BetweenJoins(chain, 0, at[k], at[k] + 1);
    }
  }

  lemma {:induction false} HeightsGrow(
    chain: Chain, start: nat, picks: seq<Pick>, visits: seq<Visit>, at: seq<nat>, j: nat, k: nat)
    requires OnChain(chain, start, picks, visits, at) && j <= k < Visited(visits)
    ensures at[j] <= at[k]
  {
    if j < k {
      HeightsGrow(chain, start, picks, visits, at, j, k - 1);
      CommittedIsPrefix(chain, start, picks, visits, at, k);
    }
  }

  lemma PrefixClosed(universe: Vertices, chain: Chain, n: nat, m: nat)
    requires n <= m <= |chain| && Complete(universe, chain, m)
    ensures AncestorClosed(universe, Prefix(chain, n))
  {
    forall h, p | h in Prefix(chain, n) && h in universe && p in universe[h].parents ensures p in Prefix(chain, n) {
      var i :| 0 <= i < n && h in chain[i];
      assert p in Prefix(chain, i + 1);
    }
  }

  /** What the loop assumes of the blocks it folds in follows from the chain. */
  lemma ChainBringsComplete(
    universe: Vertices, chain: Chain, n: nat, start: nat, picks: seq<Pick>, visits: seq<Visit>, at: seq<nat>)
    requires OnChain(chain, start, picks, visits, at) && n <= |chain| && Complete(universe, chain, n)
    requires forall k :: 0 <= k < Visited(visits) ==> at[k] <= n
    ensures BlocksComplete(universe, picks, visits, Prefix(chain, start))
  {
    var base := Prefix(chain, start);
    forall k, h, p | 0 <= k < Visited(visits) && h in Brought(visits, k) && h in universe && p in universe[h].parents
      ensures p in After(picks, visits, base, k) + Brought(visits, k)
    {
      CommittedIsPrefix(chain, start, picks, visits, at, k);
      PrefixClosed(universe, chain, at[k], n);
    }
  }

  // ----- how blocks come to be

  /** The cycle in which some validator landed a block, as its pick `m`. */
  datatype Landing = Landing(view: Dag, start: nat, picks: seq<Pick>, visits: seq<Visit>, at: seq<nat>, m: nat)

  /** By the time pick `m` lands, every failed pick before it has been committed by somebody else's block. */
  ghost predicate CoveredBy(picks: seq<Pick>, visits: seq<Visit>, m: nat)
    requires m < |visits| == |picks|
  {
    forall j :: 0 <= j < m && visits[j].fate.Failed? ==>
      exists k :: 0 <= k <= m && picks[j].leader in Brought(visits, k)
  }

  ghost predicate LandedBy(universe: Vertices, validators: seq<Author>, chain: Chain, l: Landing, i: nat)
  {
    && validators != [] && PartOf(universe, l.view) && OnChain(chain, l.start, l.picks, l.visits, l.at)
    && PicksOk(l.view, validators, Prefix(chain, l.start), l.picks)
    && l.m < Visited(l.visits) && l.visits[l.m].fate.Landed? && l.at[l.m] == i
  }

  /** The visits up to pick `m`, as they were known when it was visited. */
  function UpToPick(visits: seq<Visit>, m: nat): seq<Visit>
    requires m < |visits|
  {
    visits[m := visits[m].(fate := Stopped)]
  }

  lemma UpToPickVisits(picks: seq<Pick>, visits: seq<Visit>, m: nat)
    requires |visits| == |picks| && m < Visited(visits)
    ensures Visited(UpToPick(visits, m)) == m + 1
    ensures forall k :: 0 <= k <= m ==> Brought(UpToPick(visits, m), k) == Brought(visits, k)
    ensures CoveredBy(picks, visits, m) ==> FailuresCovered(picks, UpToPick(visits, m))
  {
    var seen := UpToPick(visits, m);
    VisitedWhile(seen, m);
    if CoveredBy(picks, visits, m) {
      forall j | 0 <= j < m && seen[j].fate.Failed?
        ensures exists k :: 0 <= k < m + 1 && picks[j].leader in Brought(seen, k)
      {
        assert visits[j].fate.Failed?;
        var k :| 0 <= k <= m && picks[j].leader in Brought(visits, k);
        assert picks[j].leader in Brought(seen, k);
      }
    }
  }

  lemma UpToPickOnChain(chain: Chain, start: nat, picks: seq<Pick>, visits: seq<Visit>, at: seq<nat>, m: nat)
    requires OnChain(chain, start, picks, visits, at) && m < Visited(visits)
    ensures at[m] <= Left(visits, at, m) <= |chain|
    ensures Visited(UpToPick(visits, m)) == m + 1 && OnChain(chain, start, picks, UpToPick(visits, m), at)
    ensures After(picks, UpToPick(visits, m), Prefix(chain, start), m + 1) == Prefix(chain, at[m])
  {
    var seen := UpToPick(visits, m);
    UpToPickVisits(picks, visits, m);
    forall k | 0 <= k < m + 1
      ensures Left(seen, at, k) <= |chain| && VisitOnChain(chain, start, picks, seen, at, k)
    {
      assert Left(visits, at, k) <= |chain| && VisitOnChain(chain, start, picks, visits, at, k);
    }
    CommittedIsPrefix(chain, start, picks, seen, at, m);
  }

  /** A block landed with all earlier failures covered holds the missing parents of its vertices. */
  lemma BlockComplete(universe: Vertices, validators: seq<Author>, chain: Chain, l: Landing, i: nat)
    requires i < |chain| && LandedBy(universe, validators, chain, l, i) && CoveredBy(l.picks, l.visits, l.m)
    requires Complete(universe, chain, i)
    ensures Complete(universe, chain, i + 1)
  {
    BetweenJoins(chain, 0, i, i + 1);
    forall h, p | h in chain[i] && h in universe && p in universe[h].parents ensures p in Prefix(chain, i + 1) {
      BlockParent(universe, validators, chain, l, i, h, p);
    }
  }

  lemma BlockParent(
    universe: Vertices, validators: seq<Author>, chain: Chain, l: Landing, i: nat, h: Hash, p: Hash)
    requires i < |chain| && LandedBy(universe, validators, chain, l, i) && CoveredBy(l.picks, l.visits, l.m)
    requires Complete(universe, chain, i) && h in chain[i] && h in universe && p in universe[h].parents
    ensures p in Prefix(chain, i) || p in chain[i]
  {
    EarlierPicksReached(universe, validators, chain, l, i);
    assert VisitOnChain(chain, l.start, l.picks, l.visits, l.at, l.m);
    PickParent(universe, l.view, validators, Prefix(chain, l.start), l.picks, l.m, Prefix(chain, i), h, p);
  }

  /** What the picks before the landed one project is in the blocks below it. */
  lemma EarlierPicksReached(universe: Vertices, validators: seq<Author>, chain: Chain, l: Landing, i: nat)
    requires i < |chain| && LandedBy(universe, validators, chain, l, i) && CoveredBy(l.picks, l.visits, l.m)
    requires Complete(universe, chain, i)
    ensures Prefix(chain, l.start) <= Prefix(chain, i)
    ensures forall j :: 0 <= j < l.m ==> Elements(l.picks[j].projection) <= Prefix(chain, i)
  {
    var base, seen := Prefix(chain, l.start), UpToPick(l.visits, l.m);
    SeenComplete(universe, chain, l, i);
    AfterGrows(l.picks, seen, base, 0, l.m + 1);
    forall j | 0 <= j < l.m ensures Elements(l.picks[j].projection) <= Prefix(chain, i) {
      PassedProjection(universe, l.view, validators, base, l.picks, seen, j);
    }
  }

  lemma SeenComplete(universe: Vertices, chain: Chain, l: Landing, i: nat)
    requires OnChain(chain, l.start, l.picks, l.visits, l.at) && i <= |chain| && Complete(universe, chain, i)
    requires l.m < Visited(l.visits) && l.at[l.m] == i && CoveredBy(l.picks, l.visits, l.m)
    ensures var base, seen := Prefix(chain, l.start), UpToPick(l.visits, l.m);
            && Visited(seen) == l.m + 1 && FailuresCovered(l.picks, seen)
            && BlocksComplete(universe, l.picks, seen, base)
            && After(l.picks, seen, base, l.m + 1) == Prefix(chain, i)
  {
    UpToPickVisits(l.picks, l.visits, l.m);
    UpToPickOnChain(chain, l.start, l.picks, l.visits, l.at, l.m);
    forall k | 0 <= k <= l.m ensures l.at[k] <= i {
      HeightsGrow(chain, l.start, l.picks, l.visits, l.at, k, l.m);
    }
    ChainBringsComplete(universe, chain, i, l.start, l.picks, UpToPick(l.visits, l.m), l.at);
  }

  /** The parents of a projected vertex are in the projection, or in what was reached before its pick. */
  lemma PickParent(
    universe: Vertices, d: Dag, validators: seq<Author>, base: set<Hash>, picks: seq<Pick>, m: nat, reached: set<Hash>,
    h: Hash, p: Hash)
    requires validators != [] && PartOf(universe, d) && PicksOk(d, validators, base, picks) && m < |picks|
    requires base <= reached && forall j :: 0 <= j < m ==> Elements(picks[j].projection) <= reached
    requires h in Elements(picks[m].projection) && h in universe && p in universe[h].parents
    ensures p in reached || p in Elements(picks[m].projection)
  {
    PickFacts(d, validators, base, picks, m);
    ParentOfProjected(universe, d, picks[m], base + PickedSet(picks[..m]), h, p);
    if p in PickedSet(picks[..m]) {
      PickedSetMember(picks[..m], p);
      var j :| 0 <= j < m && p in picks[..m][j].projection;
      assert p in Elements(picks[j].projection);
    }
  }

  /**
   When every block was landed by a cycle whose earlier failures were covered by then, every block of the
   chain holds the missing parents of its vertices.
   */
  lemma {:induction false} ChainComplete(
    universe: Vertices, validators: seq<Author>, chain: Chain, landings: seq<Landing>, n: nat)
    requires n <= |chain| == |landings|
    requires forall i :: 0 <= i < |chain| ==>
               LandedBy(universe, validators, chain, landings[i], i) &&
               CoveredBy(landings[i].picks, landings[i].visits, landings[i].m)
    ensures Complete(universe, chain, n)
  {
    if n > 0 {
      ChainComplete(universe, validators, chain, landings, n - 1);
      BlockComplete(universe, validators, chain, landings[n - 1], n - 1);
    }
  }

  /** A cycle of any validator on a chain, with the heights at which it visits its picks. */
  ghost predicate CycleOnChain(
    universe: Vertices, validators: seq<Author>, chain: Chain, s: State, c: Cycle, start: nat, at: seq<nat>)
  {
    && validators != [] && PartOf(universe, c.view) && OnChain(chain, start, c.picks, c.visits, at)
    && Folded(s, c) == Prefix(chain, start)
    && ScanInv(c.view, validators, Folded(s, c), s.cursor, c.stoppedAt, c.picks)
  }

  /**
   On a complete chain a cycle needs no premise about blocks, and leaves its rounds settled exactly when
   its failures are covered.
   */
  lemma NetworkCycleSettles(
    universe: Vertices, validators: seq<Author>, chain: Chain, s: State, c: Cycle, start: nat, at: seq<nat>)
    requires CycleOnChain(universe, validators, chain, s, c, start, at) && Complete(universe, chain, |chain|)
    ensures CycleOk(universe, validators, s, c)
    ensures SettlesIts(validators, s, c) <==> FailuresCovered(c.picks, c.visits)
  {
    PrefixClosed(universe, chain, start, |chain|);
    forall k | 0 <= k < Visited(c.visits) ensures at[k] <= |chain| {
      assert VisitOnChain(chain, start, c.picks, c.visits, at, k);
    }
    ChainBringsComplete(universe, chain, |chain|, start, c.picks, c.visits, at);
    CycleSettles(universe, c.view, validators, Folded(s, c), s.cursor, c.stoppedAt, c.picks, c.visits);
  }

  /**
   The network: all blocks come from cycles of its validators. If each block was landed with the failures
   before it covered, the cycles of every validator form a run, so whatever holds of runs holds of them.
   */
  lemma NetworkRuns(
    universe: Vertices, validators: seq<Author>, chain: Chain, landings: seq<Landing>,
    states: seq<State>, cycles: seq<Cycle>, starts: seq<nat>, heights: seq<seq<nat>>)
    requires |landings| == |chain|
    requires forall i :: 0 <= i < |chain| ==>
               LandedBy(universe, validators, chain, landings[i], i) &&
               CoveredBy(landings[i].picks, landings[i].visits, landings[i].m)
    requires |states| == |cycles| + 1 && |starts| == |heights| == |cycles| && states[0].committed == {}
    requires forall i :: 0 <= i < |cycles| ==>
               CycleOnChain(universe, validators, chain, states[i], cycles[i], starts[i], heights[i]) &&
               states[i + 1] == Next(states[i], cycles[i])
    ensures Run(universe, validators, states, cycles)
    ensures forall i :: 0 <= i < |cycles| ==>
              (SettlesIts(validators, states[i], cycles[i]) <==> FailuresCovered(cycles[i].picks, cycles[i].visits))
  {
    ChainComplete(universe, validators, chain, landings, |chain|);
    forall i | 0 <= i < |cycles|
      ensures CycleOk(universe, validators, states[i], cycles[i])
      ensures SettlesIts(validators, states[i], cycles[i]) <==> FailuresCovered(cycles[i].picks, cycles[i].visits)
    {
      NetworkCycleSettles(universe, validators, chain, states[i], cycles[i], starts[i], heights[i]);
    }
  }

  /** The premise is needed: the block that lands over a refused one is a chain without a parent of its leader. */
  lemma UncoveredLandingIsIncomplete()
    ensures var d := FullDag.Full();
            var l := Landing(d, 0, FullPicks(), [Visit({}, Failed), Visit({}, Landed)], [0, 0], 1);
            && LandedBy(d.vertices, FullDag.Schedule(), [{4, 6, 7, 10}], l, 0)
            && !Complete(d.vertices, [{4, 6, 7, 10}], 1)
  {
    RefusedBlockIsLeftBehind();
    RefusedOnChain([{4, 6, 7, 10}], [Visit({}, Failed), Visit({}, Landed)], [0, 0]);
    FullDag.FullIsFull();
    FullDag.FullIsAdmitted(FullDag.Full());
    NotClosedNotComplete(FullDag.Full().vertices, [{4, 6, 7, 10}]);
  }

  lemma NotClosedNotComplete(universe: Vertices, chain: Chain)
    requires |chain| == 1 && !AncestorClosed(universe, chain[0])
    ensures !Complete(universe, chain, 1)
  {
    BetweenJoins(chain, 0, 0, 1);
    if Complete(universe, chain, 1) {
      PrefixClosed(universe, chain, 1, 1);
    }
  }

  lemma RefusedOnChain(chain: Chain, visits: seq<Visit>, at: seq<nat>)
    requires chain == [{4, 6, 7, 10}] && visits == [Visit({}, Failed), Visit({}, Landed)] && at == [0, 0]
    ensures OnChain(chain, 0, FullPicks(), visits, at) && Prefix(chain, 0) == {}
  {
    assert Elements(FullPicks()[1].projection) == {4, 6, 7, 10};
    BetweenJoins(chain, 0, 0, 0);
  }
}
