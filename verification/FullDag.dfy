/**
 Four rounds of four validators in which everybody references everybody: the situations the scan results
 speak about, on a concrete DAG.
 */
module FullDag {
  import opened Seqs
  import opened Quorum
  import opened Dag
  import opened Wave
  import opened WaveScan

  /** One of the four may be faulty. */
  function Four(): Committee
  {
    Committee({0, 1, 2, 3}, {3})
  }

  function Schedule(): seq<Author>
  {
    [0, 1, 2, 3]
  }

  /** The vertex of author `a` in round `r` has the hash `4 * r + a`. */
  function RoundHashes(r: nat): (hs: seq<Hash>)
    ensures |hs| == 4 && Distinct(hs)
    ensures forall h :: h in hs <==> h / 4 == r
  {
    var hs := [4 * r, 4 * r + 1, 4 * r + 2, 4 * r + 3];
    assert forall h: Hash :: h in hs <==> 4 * r <= h <= 4 * r + 3;
    hs
  }

  function FullVertex(h: Hash): Vertex
    requires h >= 4
  {
    Vertex(1, h / 4, h % 4, if h < 8 then [] else RoundHashes(h / 4 - 1))
  }

  function Full(): Dag
  {
    Dag(map h: Hash | 4 <= h < 20 :: FullVertex(h),
        [[], RoundHashes(1), RoundHashes(2), RoundHashes(3), RoundHashes(4)])
  }

  ghost predicate IsFull(d: Dag)
  {
    && (forall h :: h in d.vertices <==> 4 <= h < 20)
    && (forall h :: h in d.vertices ==> d.vertices[h] == FullVertex(h))
    && |d.rounds| == 5
    && (forall r :: 0 <= r < 5 ==> d.rounds[r] == if r == 0 then [] else RoundHashes(r))
  }

  lemma FullIsFull()
    ensures IsFull(Full())
  {
  }

  lemma FullIsValid(d: Dag)
    requires IsFull(d)
    ensures ValidDag(d)
  {
    assert RoundHashes(4)[0] in RoundHashes(4);
  }

  lemma RoundAuthor(d: Dag, r: nat, a: Author)
    requires IsFull(d) && 1 <= r <= 4 && a < 4
    ensures 4 * r + a in RoundHashes(r) && 4 * r + a in d.vertices
    ensures d.vertices[4 * r + a] == Vertex(1, r, a, if r == 1 then [] else RoundHashes(r - 1))
  {
    assert (4 * r + a) / 4 == r && (4 * r + a) % 4 == a;
  }

  ghost predicate AllFour(authors: set<Author>)
  {
    forall a: Author :: a < 4 ==> a in authors
  }

  lemma FourAreQuorum(authors: set<Author>)
    requires AllFour(authors)
    ensures |authors| >= 4 && RequiredQuorum(4) == 3
  {
    SubsetCardinality({0, 1, 2, 3}, authors);
  }

  lemma FourIsValid()
    ensures ValidCommittee(Four()) && |Four().validators| == 4 && RequiredQuorum(4) == 3
  {
  }

  lemma FullVertexIsAdmitted(d: Dag, h: Hash)
    requires IsFull(d) && h in d.vertices
    ensures AdmittedVertex(Four(), d.vertices, h)
  {
    if h >= 8 {
      var r := h / 4;
      forall a: Author | a < 4 ensures a in ParentAuthors(d.vertices, h) {
        RoundAuthor(d, r - 1, a);
      }
      FourAreQuorum(ParentAuthors(d.vertices, h));
      FourIsValid();
    }
  }

  lemma FullIsAdmitted(d: Dag)
    requires IsFull(d)
    ensures AdmittedUniverse(Four(), d.vertices) && LocalView(d.vertices, d)
  {
    FullIsValid(d);
    FullAuthors(d);
    forall h | h in d.vertices ensures AdmittedVertex(Four(), d.vertices, h) {
      FullVertexIsAdmitted(d, h);
    }
  }

  lemma FullAuthors(d: Dag)
    requires IsFull(d)
    ensures KnownAuthors(Four(), d.vertices) && HonestOncePerRound(Four(), d.vertices) && OncePerRound(d)
  {
    forall h | h in d.vertices ensures d.vertices[h].author < 4 && h == 4 * d.vertices[h].round + d.vertices[h].author {
    }
  }

  /** Every vertex two rounds up certifies every vertex. */
  lemma FullCertificates(d: Dag, leader: Hash, r: nat, h: Hash)
    requires IsFull(d) && 1 <= r <= 2 && leader in RoundHashes(r) && h in RoundHashes(r + 2)
    ensures IsCertificate(d, h, leader, r, RequiredQuorum(4))
  {
    forall a: Author | a < 4 ensures a in CoveredAuthors(d, d.vertices[h].parents, leader, r) {
      RoundAuthor(d, r + 1, a);
      assert IsVote(d, 4 * (r + 1) + a, leader, r);
    }
    FourAreQuorum(CoveredAuthors(d, d.vertices[h].parents, leader, r));
  }

  lemma FullCertifier(d: Dag, leader: Hash, r: nat, a: Author)
    requires IsFull(d) && ValidDag(d) && 1 <= r <= 2 && leader in RoundHashes(r) && a < 4
    ensures a in CertAuthors(d, leader, r, RequiredQuorum(4))
  {
    RoundAuthor(d, r + 2, a);
    FullCertificates(d, leader, r, 4 * (r + 2) + a);
    CertifyingAuthorsMember(d, RoundVertices(d, r + 2), leader, r, RequiredQuorum(4), a);
  }

  lemma FullCommits(d: Dag, leader: Hash, r: nat)
    requires IsFull(d) && 1 <= r <= 2 && leader in RoundHashes(r)
    ensures ValidDag(d) && Commits(d, leader, r, 4)
  {
    FullIsValid(d);
    forall a: Author | a < 4 ensures a in CertAuthors(d, leader, r, RequiredQuorum(4)) {
      FullCertifier(d, leader, r, a);
    }
    FourAreQuorum(CertAuthors(d, leader, r, RequiredQuorum(4)));
  }

  lemma FullLeader(d: Dag, r: nat)
    requires IsFull(d) && 1 <= r <= 3
    ensures LeaderAt(d, Schedule(), r) == Some(5 * r)
  {
    RoundAuthor(d, r, r);
    FirstByIsThere(d, RoundVertices(d, r), r, r);
    ScheduledInTurn(r);
    LeaderIsFirst(d, Schedule(), r, r);
  }

  lemma ScheduledInTurn(r: nat)
    requires r < 4
    ensures ScheduledAuthor(Schedule(), r) == r
  {
  }

  lemma LeaderIsFirst(d: Dag, validators: seq<Author>, r: nat, a: Author)
    requires validators != [] && ScheduledAuthor(validators, r) == a
    ensures LeaderAt(d, validators, r) == FirstBy(d.vertices, RoundVertices(d, r), a)
  {
  }

  lemma FirstByIsThere(d: Dag, hs: seq<Hash>, r: nat, a: Author)
    requires IsFull(d) && 1 <= r <= 4 && a < 4 && forall h :: h in hs ==> h / 4 == r
    requires 4 * r + a in hs
    ensures FirstBy(d.vertices, hs, a) == Some(4 * r + a)
  {
    RoundAuthor(d, r, a);
    var found := FirstBy(d.vertices, hs, a);
    assert found.Some?;
    assert found.value / 4 == r && found.value % 4 == a;
  }

  /** The situation of `ScanNeverDropsCommittedLeader` occurs in a committee of four with a faulty member. */
  lemma PremisesOccur()
    ensures var c, d := Four(), Full();
            && ValidCommittee(c) && AdmittedUniverse(c, d.vertices) && LocalView(d.vertices, d)
            && Commits(d, 5, 1, |c.validators|) && MaxRound(d) >= 3
            && AncestorClosed(d.vertices, {}) && ParentsAtHand(d, {})
            && LeaderAt(d, Schedule(), 1) == Some(5) && Resolved(d, Schedule(), {}, {5}, 1)
  {
    FullIsFull();
    PremisesHold(Full());
  }

  lemma PremisesHold(d: Dag)
    requires IsFull(d)
    ensures ValidCommittee(Four()) && AdmittedUniverse(Four(), d.vertices) && LocalView(d.vertices, d)
    ensures Commits(d, 5, 1, |Four().validators|) && MaxRound(d) >= 3
    ensures AncestorClosed(d.vertices, {}) && ParentsAtHand(d, {})
    ensures LeaderAt(d, Schedule(), 1) == Some(5) && Resolved(d, Schedule(), {}, {5}, 1)
  {
    FullIsAdmitted(d);
    FullAtHand(d);
    FullCommits(d, 5, 1);
    FullLeader(d, 1);
    FourIsValid();
    LeaderCovers(d, Schedule(), {5}, 1);
  }

  lemma LeaderCovers(d: Dag, validators: seq<Author>, covered: set<Hash>, round: nat)
    requires validators != [] && ValidDag(d)
    requires LeaderAt(d, validators, round).Some? && LeaderAt(d, validators, round).value in covered
    ensures Resolved(d, validators, {}, covered, round)
  {
  }

  lemma FullAtHand(d: Dag)
    requires IsFull(d)
    ensures ParentsAtHand(d, {})
  {
    forall h, p | h in d.vertices && p in d.vertices[h].parents ensures p in d.vertices {
      assert p / 4 == h / 4 - 1;
    }
  }
}
