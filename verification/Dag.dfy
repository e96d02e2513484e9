/** The vertex DAG: storage indexed by hash and by round, walks along parent edges, and vertex validity. */
module Dag {
  import opened Seqs
  import opened Quorum

  type Hash = nat
  type Author = nat

  datatype Vertex = Vertex(epoch: nat, round: nat, author: Author, parents: seq<Hash>)

  type Vertices = map<Hash, Vertex>

  /** `rounds[r]` lists the hashes of round `r` in insertion order; the last list is never empty. */
  datatype Dag = Dag(vertices: Vertices, rounds: seq<seq<Hash>>)

  function EmptyDag(): Dag
  {
    Dag(map[], [])
  }

  ghost predicate ValidDag(d: Dag)
  {
    && (forall r, h :: 0 <= r < |d.rounds| && h in d.rounds[r] ==> h in d.vertices && d.vertices[h].round == r)
    && (forall h :: h in d.vertices ==> d.vertices[h].round < |d.rounds| && h in d.rounds[d.vertices[h].round])
    && (d.rounds != [] ==> d.rounds[|d.rounds| - 1] != [])
    && (forall r :: 0 <= r < |d.rounds| ==> Distinct(d.rounds[r]))
  }

  function RoundVertices(d: Dag, round: nat): seq<Hash>
  {
    if round < |d.rounds| then d.rounds[round] else []
  }

  function MaxRound(d: Dag): nat
  {
    if d.rounds == [] then 0 else |d.rounds| - 1
  }

  function PadTo(rounds: seq<seq<Hash>>, length: nat): (padded: seq<seq<Hash>>)
    ensures |padded| == if |rounds| < length then length else |rounds|
    ensures forall r :: 0 <= r < |padded| ==> padded[r] == if r < |rounds| then rounds[r] else []
    decreases length - |rounds|
  {
    if |rounds| < length then PadTo(rounds + [[]], length) else rounds
  }

  function Insert(d: Dag, hash: Hash, vertex: Vertex): Dag
  {
    if hash in d.vertices then d
    else
      var padded := PadTo(d.rounds, vertex.round + 1);
      Dag(d.vertices[hash := vertex], padded[vertex.round := padded[vertex.round] + [hash]])
  }

  lemma InsertKeepsValid(d: Dag, hash: Hash, vertex: Vertex)
    requires ValidDag(d)
    ensures ValidDag(Insert(d, hash, vertex))
    ensures hash in Insert(d, hash, vertex).vertices
    ensures hash !in d.vertices ==> Insert(d, hash, vertex).vertices == d.vertices[hash := vertex]
    ensures MaxRound(Insert(d, hash, vertex)) >= MaxRound(d)
  {
    if hash !in d.vertices {
      var n := Insert(d, hash, vertex);
      InsertedRounds(d, hash, vertex);
      forall r, h | 0 <= r < |n.rounds| && h in n.rounds[r] ensures h in n.vertices && n.vertices[h].round == r {
        assert h == hash || h in RoundVertices(d, r);
      }
      forall h | h in n.vertices ensures n.vertices[h].round < |n.rounds| && h in n.rounds[n.vertices[h].round] {
        assert h == hash || h in RoundVertices(d, d.vertices[h].round);
      }
    }
  }

  lemma InsertedRounds(d: Dag, hash: Hash, vertex: Vertex)
    requires ValidDag(d) && hash !in d.vertices
    ensures var n := Insert(d, hash, vertex);
            && |n.rounds| >= |d.rounds| && |n.rounds| > vertex.round
            && (forall r, h :: 0 <= r < |n.rounds| ==>
                  (h in n.rounds[r] <==> h in RoundVertices(d, r) || (r == vertex.round && h == hash)))
            && (forall r :: 0 <= r < |n.rounds| ==> Distinct(n.rounds[r]))
            && n.rounds[|n.rounds| - 1] != []
  {
    var n := Insert(d, hash, vertex);
    forall r | 0 <= r < |n.rounds|
      ensures n.rounds[r] == RoundVertices(d, r) + if r == vertex.round then [hash] else []
    {
    }
    forall r | 0 <= r < |n.rounds| ensures Distinct(n.rounds[r]) {
      DistinctRound(d, hash, r);
    }
  }

  lemma DistinctRound(d: Dag, hash: Hash, r: nat)
    requires ValidDag(d) && hash !in d.vertices
    ensures Distinct(RoundVertices(d, r)) && Distinct(RoundVertices(d, r) + [hash])
  {
    assert forall h :: h in RoundVertices(d, r) ==> h in d.vertices;
  }

  /** The vertices of a round are exactly those stored with that round number. */
  lemma RoundVerticesExact(d: Dag, round: nat, h: Hash)
    requires ValidDag(d)
    ensures h in RoundVertices(d, round) <==> h in d.vertices && d.vertices[h].round == round
    ensures h in d.vertices ==> d.vertices[h].round <= MaxRound(d)
  {
  }

  // ----- walks along parent edges, cut at a set of vertices

  ghost predicate Walk(vertices: Vertices, cut: set<Hash>, path: seq<Hash>)
  {
    forall k :: 0 <= k < |path| - 1 ==>
      path[k] in vertices && path[k] !in cut && path[k + 1] in vertices[path[k]].parents
  }

  /** `to` is met when following parent edges from `from` without continuing below a cut vertex. */
  ghost predicate Reaches(vertices: Vertices, cut: set<Hash>, from: Hash, to: Hash)
  {
    exists path :: |path| >= 1 && path[0] == from && path[|path| - 1] == to && Walk(vertices, cut, path)
  }

  lemma ReachesSelf(vertices: Vertices, cut: set<Hash>, h: Hash)
    ensures Reaches(vertices, cut, h, h)
  {
    var path := [h];
    assert |path| >= 1 && path[0] == h && path[|path| - 1] == h && Walk(vertices, cut, path);
  }

  lemma ReachesParent(vertices: Vertices, cut: set<Hash>, from: Hash, child: Hash, parent: Hash)
    requires Reaches(vertices, cut, from, child)
    requires child in vertices && child !in cut && parent in vertices[child].parents
    ensures Reaches(vertices, cut, from, parent)
  {
    var path :| |path| >= 1 && path[0] == from && path[|path| - 1] == child && Walk(vertices, cut, path);
    var longer := path + [parent];
    assert |longer| >= 1 && longer[0] == from && longer[|longer| - 1] == parent && Walk(vertices, cut, longer);
  }

  lemma ReachesFromParent(vertices: Vertices, cut: set<Hash>, child: Hash, parent: Hash, to: Hash)
    requires Reaches(vertices, cut, parent, to)
    requires child in vertices && child !in cut && parent in vertices[child].parents
    ensures Reaches(vertices, cut, child, to)
  {
    var path :| |path| >= 1 && path[0] == parent && path[|path| - 1] == to && Walk(vertices, cut, path);
    var longer := [child] + path;
    assert |longer| >= 1 && longer[0] == child && longer[|longer| - 1] == to && Walk(vertices, cut, longer);
  }

  /** A set that contains the start and is closed under uncut parent edges contains all that is reached. */
  lemma {:induction false} ClosedContainsReached(vertices: Vertices, cut: set<Hash>, path: seq<Hash>, closed: set<Hash>)
    requires |path| >= 1 && path[0] in closed && Walk(vertices, cut, path)
    requires forall h, p :: h in closed && h in vertices && h !in cut && p in vertices[h].parents ==> p in closed
    ensures path[|path| - 1] in closed
  {
    if |path| > 1 {
      assert path[1] in vertices[path[0]].parents;
      assert Walk(vertices, cut, path[1..]) by {
        forall k | 0 <= k < |path[1..]| - 1
          ensures path[1..][k] in vertices && path[1..][k] !in cut && path[1..][k + 1] in vertices[path[1..][k]].parents
        {
          assert path[1..][k] == path[k + 1] && path[1..][k + 1] == path[k + 2];
          assert path[k + 1] in vertices && path[k + 1] !in cut && path[(k + 1) + 1] in vertices[path[k + 1]].parents;
        }
      }
      ClosedContainsReached(vertices, cut, path[1..], closed);
    }
  }

  /** Every ancestor of a member is a member. */
  ghost predicate AncestorClosed(vertices: Vertices, members: set<Hash>)
  {
    forall h, p :: h in members && h in vertices && p in vertices[h].parents ==> p in members
  }

  // ----- what vertex admission guarantees

  datatype Committee = Committee(validators: set<Author>, faulty: set<Author>)

  ghost predicate ValidCommittee(c: Committee)
  {
    c.faulty <= c.validators && |c.validators| >= 3 * |c.faulty| + 1
  }

  ghost function ParentAuthors(vertices: Vertices, h: Hash): set<Author>
    requires h in vertices
  {
    set p | p in vertices[h].parents && p in vertices :: vertices[p].author
  }

  /**
   Admission of one vertex: round 1 has no parents, later rounds a quorum of parents from the round
   before, one per author.
   */
  ghost predicate AdmittedVertex(c: Committee, vertices: Vertices, h: Hash)
    requires h in vertices
  {
    var v := vertices[h];
    && v.round >= 1
    && (v.round == 1 ==> v.parents == [])
    && (v.round > 1 ==>
          && (forall p :: p in v.parents ==>
              p in vertices && vertices[p].round == v.round - 1 && vertices[p].epoch == v.epoch)
          && (forall p, p' :: p in v.parents && p' in v.parents && vertices[p].author == vertices[p'].author ==>
              p == p')
          && |ParentAuthors(vertices, h)| >= RequiredQuorum(|c.validators|))
  }

  ghost predicate KnownAuthors(c: Committee, universe: Vertices)
  {
    forall h :: h in universe ==> universe[h].author in c.validators
  }

  ghost predicate HonestOncePerRound(c: Committee, universe: Vertices)
  {
    forall h, h' | h in universe && h' in universe && universe[h].author !in c.faulty &&
                   universe[h].author == universe[h'].author && universe[h].round == universe[h'].round :: h == h'
  }

  /**
   All vertices admitted anywhere. Hashes are collision-free, so one map serves every view; an
   honest author produces one vertex per round.
   */
  ghost predicate AdmittedUniverse(c: Committee, universe: Vertices)
  {
    && KnownAuthors(c, universe)
    && HonestOncePerRound(c, universe)
    && forall h :: h in universe ==> AdmittedVertex(c, universe, h)
  }

  ghost predicate PartOf(universe: Vertices, d: Dag)
  {
    ValidDag(d) && forall h :: h in d.vertices ==> h in universe && universe[h] == d.vertices[h]
  }

  ghost predicate OncePerRound(d: Dag)
  {
    forall h, h' | h in d.vertices && h' in d.vertices && d.vertices[h].author == d.vertices[h'].author &&
                   d.vertices[h].round == d.vertices[h'].round :: h == h'
  }

  /** One validator's DAG: part of the universe, at most one vertex per author and round. */
  ghost predicate LocalView(universe: Vertices, d: Dag)
  {
    PartOf(universe, d) && OncePerRound(d)
  }
}
