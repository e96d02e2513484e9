/**
 The three-round wave of a leader: votes in the next round, certificates in the one after, and why a
 leader committed in one view is never skipped, contradicted or forgotten in another.
 */
module Wave {
  import opened Seqs
  import opened Quorum
  import opened Dag

  datatype Outcome = Commit(votes: seq<Hash>, certs: seq<Hash>) | Skip | Undecided

  predicate Supports(vertices: Vertices, h: Hash, leader: Hash)
    requires h in vertices
  {
    leader in vertices[h].parents
  }

  ghost predicate Stored(d: Dag, hs: seq<Hash>)
  {
    forall h :: h in hs ==> h in d.vertices
  }

  /** Authors of the listed vertices that do (or do not) support the leader. */
  ghost function AuthorsBySupport(d: Dag, hs: seq<Hash>, leader: Hash, support: bool): set<Author>
    requires Stored(d, hs)
  {
    if hs == [] then {}
    else
      var before, h := hs[..|hs| - 1], hs[|hs| - 1];
      AuthorsBySupport(d, before, leader, support) +
        if Supports(d.vertices, h, leader) == support then {d.vertices[h].author} else {}
  }

  lemma {:induction false} AuthorsBySupportMember(d: Dag, hs: seq<Hash>, leader: Hash, support: bool, a: Author)
    requires Stored(d, hs)
    ensures a in AuthorsBySupport(d, hs, leader, support)
            <==> exists h :: h in hs && Supports(d.vertices, h, leader) == support && d.vertices[h].author == a
  {
    if hs != [] {
      AuthorsBySupportMember(d, hs[..|hs| - 1], leader, support, a);
      assert hs == hs[..|hs| - 1] + [hs[|hs| - 1]];
    }
  }

  ghost function VoteAuthors(d: Dag, leader: Hash, round: nat): set<Author>
    requires ValidDag(d)
  {
    AuthorsBySupport(d, RoundVertices(d, round + 1), leader, true)
  }

  ghost function BlameAuthors(d: Dag, leader: Hash, round: nat): set<Author>
    requires ValidDag(d)
  {
    AuthorsBySupport(d, RoundVertices(d, round + 1), leader, false)
  }

  /** The parent `p` is a locally present vote for the leader. */
  predicate IsVote(d: Dag, p: Hash, leader: Hash, round: nat)
  {
    p in d.vertices && d.vertices[p].round == round + 1 && Supports(d.vertices, p, leader)
  }

  ghost function CoveredAuthors(d: Dag, parents: seq<Hash>, leader: Hash, round: nat): set<Author>
  {
    set p | p in parents && IsVote(d, p, leader, round) :: d.vertices[p].author
  }

  ghost predicate IsCertificate(d: Dag, h: Hash, leader: Hash, round: nat, quorum: nat)
  {
    h in d.vertices && |CoveredAuthors(d, d.vertices[h].parents, leader, round)| >= quorum
  }

  ghost function CertifyingAuthors(d: Dag, hs: seq<Hash>, leader: Hash, round: nat, quorum: nat): set<Author>
    requires Stored(d, hs)
  {
    if hs == [] then {}
    else
      var before, h := hs[..|hs| - 1], hs[|hs| - 1];
      CertifyingAuthors(d, before, leader, round, quorum) +
        if IsCertificate(d, h, leader, round, quorum) then {d.vertices[h].author} else {}
  }

  lemma {:induction false} CertifyingAuthorsMember(
    d: Dag, hs: seq<Hash>, leader: Hash, round: nat, quorum: nat, a: Author)
    requires Stored(d, hs)
    ensures a in CertifyingAuthors(d, hs, leader, round, quorum)
            <==> exists h :: h in hs && IsCertificate(d, h, leader, round, quorum) && d.vertices[h].author == a
  {
    if hs != [] {
      CertifyingAuthorsMember(d, hs[..|hs| - 1], leader, round, quorum, a);
      assert hs == hs[..|hs| - 1] + [hs[|hs| - 1]];
    }
  }

  ghost function CertAuthors(d: Dag, leader: Hash, round: nat, quorum: nat): set<Author>
    requires ValidDag(d)
  {
    CertifyingAuthors(d, RoundVertices(d, round + 2), leader, round, quorum)
  }

  ghost predicate Commits(d: Dag, leader: Hash, round: nat, validatorCount: nat)
    requires ValidDag(d)
  {
    var quorum := RequiredQuorum(validatorCount);
    |CertAuthors(d, leader, round, quorum)| >= quorum
  }

  ghost predicate Skips(d: Dag, leader: Hash, round: nat, validatorCount: nat)
    requires ValidDag(d)
  {
    |BlameAuthors(d, leader, round)| >= RequiredQuorum(validatorCount)
  }

  // ----- the same in terms of the stored vertices

  /** A parent of `h` in the round above the leader's is by `a` and names the leader as its own parent. */
  ghost predicate SeesVoteOf(d: Dag, h: Hash, leader: Hash, round: nat, a: Author)
    requires h in d.vertices
  {
    exists p :: p in d.vertices[h].parents && p in d.vertices && d.vertices[p].author == a
                && d.vertices[p].round == round + 1 && leader in d.vertices[p].parents
  }

  /** `a` has a vertex two rounds above the leader whose parents show votes of a quorum of authors. */
  ghost predicate CertifiesLeader(d: Dag, leader: Hash, round: nat, validatorCount: nat, a: Author)
  {
    exists h :: h in d.vertices && d.vertices[h].round == round + 2 && d.vertices[h].author == a
                && SeesVoteQuorum(d, h, leader, round, validatorCount)
  }

  ghost predicate SeesVoteQuorum(d: Dag, h: Hash, leader: Hash, round: nat, validatorCount: nat)
    requires h in d.vertices
  {
    exists voters: set<Author> :: 3 * |voters| > 2 * validatorCount && AllSeen(d, h, leader, round, voters)
  }

  ghost predicate AllSeen(d: Dag, h: Hash, leader: Hash, round: nat, voters: set<Author>)
    requires h in d.vertices
  {
    forall a :: a in voters ==> SeesVoteOf(d, h, leader, round, a)
  }

  /** More than two thirds of the validators certify the leader. */
  ghost predicate CertifiedByQuorum(d: Dag, leader: Hash, round: nat, validatorCount: nat)
  {
    exists authors: set<Author> ::
      3 * |authors| > 2 * validatorCount && AllCertify(d, leader, round, validatorCount, authors)
  }

  ghost predicate AllCertify(d: Dag, leader: Hash, round: nat, validatorCount: nat, authors: set<Author>)
  {
    forall a :: a in authors ==> CertifiesLeader(d, leader, round, validatorCount, a)
  }

  /** `a` has a vertex in the round above the leader's that does not name the leader. */
  ghost predicate PassesOver(d: Dag, leader: Hash, round: nat, a: Author)
  {
    exists h :: h in d.vertices && d.vertices[h].round == round + 1 && d.vertices[h].author == a
                && leader !in d.vertices[h].parents
  }

  ghost predicate BlamedByQuorum(d: Dag, leader: Hash, round: nat, validatorCount: nat)
  {
    exists authors: set<Author> :: 3 * |authors| > 2 * validatorCount && AllPassOver(d, leader, round, authors)
  }

  ghost predicate AllPassOver(d: Dag, leader: Hash, round: nat, authors: set<Author>)
  {
    forall a :: a in authors ==> PassesOver(d, leader, round, a)
  }

  lemma QuorumCardinality(n: nat, k: nat)
    ensures k >= RequiredQuorum(n) <==> 3 * k > 2 * n
  {
  }

  lemma VotersSeen(d: Dag, h: Hash, leader: Hash, round: nat, validatorCount: nat)
    requires h in d.vertices
    ensures IsCertificate(d, h, leader, round, RequiredQuorum(validatorCount)) <==>
            SeesVoteQuorum(d, h, leader, round, validatorCount)
  {
    var seen := CoveredAuthors(d, d.vertices[h].parents, leader, round);
    forall a ensures a in seen <==> SeesVoteOf(d, h, leader, round, a) {
      if SeesVoteOf(d, h, leader, round, a) {
        var p :| p in d.vertices[h].parents && p in d.vertices && d.vertices[p].author == a
                 && d.vertices[p].round == round + 1 && leader in d.vertices[p].parents;
        assert IsVote(d, p, leader, round);
      }
    }
    QuorumCardinality(validatorCount, |seen|);
    assert AllSeen(d, h, leader, round, seen);
    if SeesVoteQuorum(d, h, leader, round, validatorCount) {
      var voters: set<Author> :| 3 * |voters| > 2 * validatorCount && AllSeen(d, h, leader, round, voters);
      SubsetCardinality(voters, seen);
    }
  }

  /**
   Committing takes a quorum of certifying authors, not one: the definition by lists and the one by
   vertices agree.
   */
  lemma CommitsOnVertices(d: Dag, leader: Hash, round: nat, validatorCount: nat)
    requires ValidDag(d)
    ensures Commits(d, leader, round, validatorCount) <==> CertifiedByQuorum(d, leader, round, validatorCount)
  {
    var quorum := RequiredQuorum(validatorCount);
    var certs := CertAuthors(d, leader, round, quorum);
    forall a ensures a in certs <==> CertifiesLeader(d, leader, round, validatorCount, a) {
      CertifierOnVertices(d, leader, round, validatorCount, a);
    }
    QuorumCardinality(validatorCount, |certs|);
    assert AllCertify(d, leader, round, validatorCount, certs);
    if CertifiedByQuorum(d, leader, round, validatorCount) {
      var authors: set<Author> :| 3 * |authors| > 2 * validatorCount
                                  && AllCertify(d, leader, round, validatorCount, authors);
      SubsetCardinality(authors, certs);
    }
  }

  lemma CertifierOnVertices(d: Dag, leader: Hash, round: nat, validatorCount: nat, a: Author)
    requires ValidDag(d)
    ensures a in CertAuthors(d, leader, round, RequiredQuorum(validatorCount)) <==>
            CertifiesLeader(d, leader, round, validatorCount, a)
  {
    var quorum := RequiredQuorum(validatorCount);
    CertifyingAuthorsMember(d, RoundVertices(d, round + 2), leader, round, quorum, a);
    if a in CertAuthors(d, leader, round, quorum) {
      var h :| h in RoundVertices(d, round + 2) && IsCertificate(d, h, leader, round, quorum)
               && d.vertices[h].author == a;
      RoundVerticesExact(d, round + 2, h);
      VotersSeen(d, h, leader, round, validatorCount);
    }
    if CertifiesLeader(d, leader, round, validatorCount, a) {
      var h :| h in d.vertices && d.vertices[h].round == round + 2 && d.vertices[h].author == a
               && SeesVoteQuorum(d, h, leader, round, validatorCount);
      RoundVerticesExact(d, round + 2, h);
      VotersSeen(d, h, leader, round, validatorCount);
    }
  }

  lemma SkipsOnVertices(d: Dag, leader: Hash, round: nat, validatorCount: nat)
    requires ValidDag(d)
    ensures Skips(d, leader, round, validatorCount) <==> BlamedByQuorum(d, leader, round, validatorCount)
  {
    var blamers := BlameAuthors(d, leader, round);
    forall a ensures a in blamers <==> PassesOver(d, leader, round, a) {
      AuthorsBySupportMember(d, RoundVertices(d, round + 1), leader, false, a);
      forall h ensures h in RoundVertices(d, round + 1) <==> h in d.vertices && d.vertices[h].round == round + 1 {
        RoundVerticesExact(d, round + 1, h);
      }
    }
    QuorumCardinality(validatorCount, |blamers|);
    assert AllPassOver(d, leader, round, blamers);
    if BlamedByQuorum(d, leader, round, validatorCount) {
      var authors: set<Author> :| 3 * |authors| > 2 * validatorCount && AllPassOver(d, leader, round, authors);
      SubsetCardinality(authors, blamers);
    }
  }

  /** Which parents cover a quorum of distinct supporters; stops counting once the quorum is met. */
  method CoversQuorum(d: Dag, parents: seq<Hash>, leader: Hash, round: nat, quorum: nat) returns (covers: bool)
    requires quorum >= 1
    ensures covers <==> |CoveredAuthors(d, parents, leader, round)| >= quorum
  {
    var covered: set<Author> := {};
    for k := 0 to |parents|
      invariant covered == CoveredAuthors(d, parents[..k], leader, round)
      invariant |covered| < quorum
    {
      var p := parents[k];
      assert parents[..k + 1] == parents[..k] + [p];
      assert IsVote(d, p, leader, round) ==>
          CoveredAuthors(d, parents[..k + 1], leader, round) == covered + {d.vertices[p].author};
      if IsVote(d, p, leader, round) && d.vertices[p].author !in covered {
        covered := covered + {d.vertices[p].author};
        if |covered| >= quorum {
          SubsetCardinality(covered, CoveredAuthors(d, parents, leader, round));
          return true;
        }
      }
    }
    assert parents[..|parents|] == parents;
    return false;
  }

  ghost function AuthorsOf(d: Dag, hs: seq<Hash>): set<Author>
    requires Stored(d, hs)
  {
    set h | h in hs :: d.vertices[h].author
  }

  /** The listed vertices are by exactly these authors, one vertex each. */
  ghost predicate OnePerAuthor(d: Dag, listed: seq<Hash>, authors: set<Author>)
  {
    Stored(d, listed) && AuthorsOf(d, listed) == authors && |listed| == |authors|
  }

  /** Round `round + 1`: the supporters (one vertex per author) and the authors of non-supporters. */
  method CountVotes(d: Dag, next: seq<Hash>, leader: Hash) returns (votes: seq<Hash>, blameAuthors: set<Author>)
    requires Stored(d, next)
    ensures OnePerAuthor(d, votes, AuthorsBySupport(d, next, leader, true))
    ensures blameAuthors == AuthorsBySupport(d, next, leader, false)
  {
    var voteAuthors: set<Author> := {};
    votes, blameAuthors := [], {};
    for k := 0 to |next|
      invariant Stored(d, next[..k])
      invariant voteAuthors == AuthorsBySupport(d, next[..k], leader, true)
      invariant blameAuthors == AuthorsBySupport(d, next[..k], leader, false)
      invariant OnePerAuthor(d, votes, voteAuthors)
    {
      var h := next[k];
      assert next[..k + 1][..k] == next[..k];
      if Supports(d.vertices, h, leader) {
        if d.vertices[h].author !in voteAuthors {
          ListedGrows(d, votes, voteAuthors, h);
          voteAuthors := voteAuthors + {d.vertices[h].author};
          votes := votes + [h];
        } else {
          assert voteAuthors + {d.vertices[h].author} == voteAuthors;
        }
      } else {
        blameAuthors := blameAuthors + {d.vertices[h].author};
      }
    }
    assert next[..|next|] == next;
  }

  /** Round `round + 2`: the vertices whose parents hold a vote quorum, one per author. */
  method CountCertificates(d: Dag, decide: seq<Hash>, leader: Hash, round: nat, quorum: nat)
    returns (certs: seq<Hash>, certAuthors: set<Author>)
    requires Stored(d, decide) && quorum >= 1
    ensures certAuthors == CertifyingAuthors(d, decide, leader, round, quorum)
    ensures OnePerAuthor(d, certs, certAuthors)
  {
    certs, certAuthors := [], {};
    for k := 0 to |decide|
      invariant Stored(d, decide[..k])
      invariant certAuthors == CertifyingAuthors(d, decide[..k], leader, round, quorum)
      invariant OnePerAuthor(d, certs, certAuthors)
    {
      var h := decide[k];
      assert decide[..k + 1][..k] == decide[..k];
      var covers := CoversQuorum(d, d.vertices[h].parents, leader, round, quorum);
      if covers {
        if d.vertices[h].author !in certAuthors {
          ListedGrows(d, certs, certAuthors, h);
          certAuthors := certAuthors + {d.vertices[h].author};
          certs := certs + [h];
        } else {
          assert certAuthors + {d.vertices[h].author} == certAuthors;
        }
      }
    }
    assert decide[..|decide|] == decide;
  }

  method EvaluateLeaderWave(d: Dag, leader: Hash, round: nat, validatorCount: nat) returns (outcome: Outcome)
    requires ValidDag(d)
    ensures outcome.Commit? <==> Commits(d, leader, round, validatorCount)
    ensures outcome.Commit? <==> CertifiedByQuorum(d, leader, round, validatorCount)
    ensures outcome.Skip? <==> !outcome.Commit? && BlamedByQuorum(d, leader, round, validatorCount)
    ensures outcome.Skip? <==> !Commits(d, leader, round, validatorCount) && Skips(d, leader, round, validatorCount)
    ensures outcome.Commit? ==>
              && OnePerAuthor(d, outcome.votes, VoteAuthors(d, leader, round))
              && OnePerAuthor(d, outcome.certs, CertAuthors(d, leader, round, RequiredQuorum(validatorCount)))
  {
    var quorum := RequiredQuorum(validatorCount);
    var votes, blameAuthors := CountVotes(d, RoundVertices(d, round + 1), leader);
    var certs, certAuthors := CountCertificates(d, RoundVertices(d, round + 2), leader, round, quorum);
    CommitsOnVertices(d, leader, round, validatorCount);
    SkipsOnVertices(d, leader, round, validatorCount);
    if |certAuthors| >= quorum {
      return Commit(votes, certs);
    }
    if |blameAuthors| >= quorum {
      return Skip;
    }
    return Undecided;
  }

  lemma ListedGrows(d: Dag, listed: seq<Hash>, authors: set<Author>, h: Hash)
    requires OnePerAuthor(d, listed, authors) && h in d.vertices && d.vertices[h].author !in authors
    ensures OnePerAuthor(d, listed + [h], authors + {d.vertices[h].author})
  {
    assert AuthorsOf(d, listed + [h]) == AuthorsOf(d, listed) + {d.vertices[h].author};
  }

  // ----- agreement between views

  /** A vote quorum stands behind every commit. */
  lemma CommitHasVoteQuorum(
    c: Committee, universe: Vertices, d: Dag, leader: Hash, round: nat) returns (voters: set<Author>)
    requires ValidCommittee(c) && AdmittedUniverse(c, universe) && LocalView(universe, d)
    requires Commits(d, leader, round, |c.validators|)
    ensures voters <= c.validators && |voters| >= RequiredQuorum(|c.validators|)
    ensures forall a :: a in voters ==> exists p :: p in universe && universe[p].author == a
                                                    && universe[p].round == round + 1 && Supports(universe, p, leader)
  {
    var quorum := RequiredQuorum(|c.validators|);
    var author :| author in CertAuthors(d, leader, round, quorum);
    CertifyingAuthorsMember(d, RoundVertices(d, round + 2), leader, round, quorum, author);
    var h :| h in RoundVertices(d, round + 2) && IsCertificate(d, h, leader, round, quorum) &&
        d.vertices[h].author == author;
    voters := CoveredAuthors(d, d.vertices[h].parents, leader, round);
    forall a | a in voters
      ensures a in c.validators
      ensures exists p :: p in universe && universe[p].author == a && universe[p].round == round + 1 &&
                Supports(universe, p, leader)
    {
      var p :| p in d.vertices[h].parents && IsVote(d, p, leader, round) && d.vertices[p].author == a;
      assert universe[p] == d.vertices[p];
      assert AdmittedVertex(c, universe, p);
    }
  }

  /**
   A leader that commits in one view is skipped in none, even with faulty authors showing different
   vertices to different views.
   */
  lemma CommitExcludesSkip(c: Committee, universe: Vertices, d1: Dag, d2: Dag, leader: Hash, round: nat)
    requires ValidCommittee(c) && AdmittedUniverse(c, universe)
    requires LocalView(universe, d1) && LocalView(universe, d2)
    requires Commits(d1, leader, round, |c.validators|)
    ensures !Skips(d2, leader, round, |c.validators|)
  {
    if Skips(d2, leader, round, |c.validators|) {
      var voters := CommitHasVoteQuorum(c, universe, d1, leader, round);
      var blamers := BlameAuthors(d2, leader, round);
      forall a | a in blamers ensures a in c.validators {
        var h := Blamer(universe, d2, leader, round, a);
      }
      HonestOverlap(c.validators, c.faulty, voters, blamers);
      var a :| a in voters * blamers - c.faulty;
      HonestAuthorDoesNotBoth(c, universe, d2, leader, round, a);
    }
  }

  lemma Blamer(universe: Vertices, d: Dag, leader: Hash, round: nat, a: Author) returns (h: Hash)
    requires PartOf(universe, d) && a in BlameAuthors(d, leader, round)
    ensures h in universe && universe[h].author == a && universe[h].round == round + 1 && !Supports(universe, h, leader)
  {
    AuthorsBySupportMember(d, RoundVertices(d, round + 1), leader, false, a);
    h :| h in RoundVertices(d, round + 1) && Supports(d.vertices, h, leader) == false && d.vertices[h].author == a;
    RoundVerticesExact(d, round + 1, h);
  }

  lemma HonestAuthorDoesNotBoth(c: Committee, universe: Vertices, d: Dag, leader: Hash, round: nat, a: Author)
    requires HonestOncePerRound(c, universe) && PartOf(universe, d) && a !in c.faulty
    requires exists p :: p in universe && universe[p].author == a && universe[p].round == round + 1 &&
              Supports(universe, p, leader)
    ensures a !in BlameAuthors(d, leader, round)
  {
    if a in BlameAuthors(d, leader, round) {
      var h := Blamer(universe, d, leader, round, a);
    }
  }

  /**
   At most one vertex of an author and round is committed in all views together, so an equivocating
   leader cannot split them.
   */
  lemma CommittedLeaderUnique(c: Committee, universe: Vertices, d1: Dag, d2: Dag, l1: Hash, l2: Hash, round: nat)
    requires ValidCommittee(c) && AdmittedUniverse(c, universe)
    requires LocalView(universe, d1) && LocalView(universe, d2)
    requires l1 in universe && l2 in universe && universe[l1].author == universe[l2].author
    requires Commits(d1, l1, round, |c.validators|) && Commits(d2, l2, round, |c.validators|)
    ensures l1 == l2
  {
    var voters1 := CommitHasVoteQuorum(c, universe, d1, l1, round);
    var voters2 := CommitHasVoteQuorum(c, universe, d2, l2, round);
    HonestOverlap(c.validators, c.faulty, voters1, voters2);
    var a :| a in voters1 * voters2 - c.faulty;
    var p1 :| p1 in universe && universe[p1].author == a && universe[p1].round == round + 1 &&
        Supports(universe, p1, l1);
    var p2 :| p2 in universe && universe[p2].author == a && universe[p2].round == round + 1 &&
        Supports(universe, p2, l2);
    assert p1 == p2 && AdmittedVertex(c, universe, p1);
  }

  /** Every vertex from round `round + 2` on has a committed leader of `round` among its ancestors. */
  lemma {:induction false} CommittedLeaderIsRemembered(
    c: Committee, universe: Vertices, d: Dag, leader: Hash, round: nat, h: Hash)
    requires ValidCommittee(c) && AdmittedUniverse(c, universe) && LocalView(universe, d)
    requires Commits(d, leader, round, |c.validators|)
    requires h in universe && universe[h].round >= round + 2
    ensures Reaches(universe, {}, h, leader)
    decreases universe[h].round
  {
    assert AdmittedVertex(c, universe, h);
    var parents := universe[h].parents;
    if universe[h].round == round + 2 {
      var voters := CommitHasVoteQuorum(c, universe, d, leader, round);
      var seen := ParentAuthors(universe, h);
      forall a | a in seen ensures a in c.validators {
        var p :| p in parents && p in universe && universe[p].author == a;
        assert AdmittedVertex(c, universe, p);
      }
      HonestOverlap(c.validators, c.faulty, voters, seen);
      var a :| a in voters * seen - c.faulty;
      var q :| q in universe && universe[q].author == a && universe[q].round == round + 1 &&
          Supports(universe, q, leader);
      var p :| p in parents && p in universe && universe[p].author == a;
      assert p == q;
      ReachesSelf(universe, {}, leader);
      ReachesFromParent(universe, {}, p, leader, leader);
      ReachesFromParent(universe, {}, h, p, leader);
    } else {
      var p := SomeParent(c, universe, h);
      CommittedLeaderIsRemembered(c, universe, d, leader, round, p);
      ReachesFromParent(universe, {}, h, p, leader);
    }
  }

  lemma SomeParent(c: Committee, universe: Vertices, h: Hash) returns (p: Hash)
    requires h in universe && AdmittedVertex(c, universe, h) && universe[h].round > 1
    ensures p in universe[h].parents && p in universe && universe[p].round == universe[h].round - 1
  {
    var a :| a in ParentAuthors(universe, h);
    p :| p in universe[h].parents && p in universe && universe[p].author == a;
  }
}
