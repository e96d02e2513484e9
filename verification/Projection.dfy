/**
 The projection of a leader: the not-yet-committed part of its history in canonical order, or the list
 of locally missing vertices with the rounds to fetch them from.
 */
module Projection {
  import opened Seqs
  import opened Dag

  datatype Attempt = Attempt(ordered: seq<Hash>, missing: set<(Hash, nat)>)

  // ----- canonical order

  predicate Precedes(vertices: Vertices, a: Hash, b: Hash)
    requires a in vertices && b in vertices
  {
    var va, vb := vertices[a], vertices[b];
    va.round < vb.round ||
    (va.round == vb.round && (va.author < vb.author || (va.author == vb.author && a < b)))
  }

  ghost predicate Canonical(vertices: Vertices, s: seq<Hash>)
  {
    && (forall i :: 0 <= i < |s| ==> s[i] in vertices)
    && (forall i, j :: 0 <= i < j < |s| ==> Precedes(vertices, s[i], s[j]))
  }

  method SortCanonical(vertices: Vertices, hashes: set<Hash>) returns (sorted: seq<Hash>)
    requires hashes <= vertices.Keys
    ensures Canonical(vertices, sorted) && Elements(sorted) == hashes
    ensures forall i, j :: 0 <= i < j < |sorted| ==>
              var a, b := vertices[sorted[i]], vertices[sorted[j]];
              || a.round < b.round
              || (a.round == b.round && a.author < b.author)
              || (a.round == b.round && a.author == b.author && sorted[i] < sorted[j])
  {
    sorted := [];
    var rest := hashes;
    while rest != {}
      invariant rest <= hashes
      invariant Canonical(vertices, sorted) && Elements(sorted) == hashes - rest
      decreases |rest|
    {
      var h :| h in rest;
      assert forall x :: x in sorted <==> x in Elements(sorted);
      var longer := InsertCanonical(vertices, sorted, h);
      assert Elements(longer) == Elements(sorted) + {h};
      sorted, rest := longer, rest - {h};
    }
  }

  function InsertCanonical(vertices: Vertices, sorted: seq<Hash>, h: Hash): (r: seq<Hash>)
    requires Canonical(vertices, sorted) && h in vertices && h !in sorted
    ensures Canonical(vertices, r)
    ensures forall x :: x in r <==> x == h || x in sorted
  {
    if sorted == [] then [h]
    else if Precedes(vertices, h, sorted[0]) then [h] + sorted
    else
      var tail := InsertCanonical(vertices, sorted[1..], h);
      assert forall i :: 0 <= i < |tail| ==> tail[i] in tail;
      [sorted[0]] + tail
  }

  /** A set of vertices has one canonical order only. */
  lemma {:induction false} CanonicalIsUnique(vertices: Vertices, s: seq<Hash>, t: seq<Hash>)
    requires Canonical(vertices, s) && Canonical(vertices, t) && Elements(s) == Elements(t)
    ensures s == t
  {
    if s == [] {
      assert Distinct(t);
      DistinctCardinality(t);
    } else {
      assert s[0] in Elements(s);
      assert t != [];
      assert t[0] in Elements(t);
      assert s[0] == t[0] by {
        var i :| 0 <= i < |t| && t[i] == s[0];
        var j :| 0 <= j < |s| && s[j] == t[0];
      }
      assert Elements(s[1..]) == Elements(s) - {s[0]} by { TailElements(vertices, s); }
      assert Elements(t[1..]) == Elements(t) - {t[0]} by { TailElements(vertices, t); }
      CanonicalIsUnique(vertices, s[1..], t[1..]);
      assert s == [s[0]] + s[1..] && t == [t[0]] + t[1..];
    }
  }

  lemma TailElements(vertices: Vertices, s: seq<Hash>)
    requires Canonical(vertices, s) && s != []
    ensures Elements(s[1..]) == Elements(s) - {s[0]}
  {
    assert s == [s[0]] + s[1..];
    forall x | x in s[1..] ensures x != s[0] {
      var i :| 0 <= i < |s[1..]| && s[1..][i] == x;
      assert Precedes(vertices, s[0], s[i + 1]);
    }
  }

  // ----- what a projection must contain

  ghost predicate Met(vertices: Vertices, roots: seq<Hash>, committed: set<Hash>, h: Hash)
  {
    exists root :: root in roots && Reaches(vertices, committed, root, h)
  }

  /** A vertex of the uncommitted history that the local DAG does not hold. */
  ghost predicate Gap(d: Dag, roots: seq<Hash>, committed: set<Hash>, h: Hash)
  {
    Met(d.vertices, roots, committed, h) && h !in committed && h !in d.vertices
  }

  ghost function Uncommitted(d: Dag, roots: seq<Hash>, committed: set<Hash>): set<Hash>
  {
    set h | h in d.vertices && h !in committed && Met(d.vertices, roots, committed, h)
  }

  /** `round` is the root round less the number of edges of some walk that ends in `h`. */
  ghost predicate RoundByWalk(d: Dag, roots: seq<Hash>, committed: set<Hash>, rootRound: nat, h: Hash, round: nat)
  {
    exists path :: |path| >= 1 && path[0] in roots && path[|path| - 1] == h && Walk(d.vertices, committed, path)
                   && round == if rootRound >= |path| - 1 then rootRound - (|path| - 1) else 0
  }

  ghost function Mentioned(d: Dag, roots: seq<Hash>): set<Hash>
  {
    d.vertices.Keys + Elements(roots) + set h, p | h in d.vertices && p in d.vertices[h].parents :: p
  }

  ghost predicate Traversed(d: Dag, roots: seq<Hash>, committed: set<Hash>, visited: set<Hash>, stack: seq<(Hash, nat)>)
  {
    && (forall root :: root in roots ==> root in visited || exists e :: e in stack && e.0 == root)
    && (forall h, p :: h in visited && h in d.vertices && h !in committed && p in d.vertices[h].parents ==>
          p in visited || exists e :: e in stack && e.0 == p)
  }

  ghost predicate Justified(d: Dag, roots: seq<Hash>, committed: set<Hash>, rootRound: nat, entries: seq<(Hash, nat)>)
  {
    forall e :: e in entries ==> e.0 in Mentioned(d, roots) && RoundByWalk(d, roots, committed, rootRound, e.0, e.1)
  }

  lemma WalkedIsMet(d: Dag, roots: seq<Hash>, committed: set<Hash>, rootRound: nat, h: Hash, round: nat)
    requires RoundByWalk(d, roots, committed, rootRound, h, round)
    ensures Met(d.vertices, roots, committed, h)
  {
    var path :| |path| >= 1 && path[0] in roots && path[|path| - 1] == h && Walk(d.vertices, committed, path)
                && round == if rootRound >= |path| - 1 then rootRound - (|path| - 1) else 0;
    assert Reaches(d.vertices, committed, path[0], h);
  }

  lemma StepDown(d: Dag, roots: seq<Hash>, committed: set<Hash>, rootRound: nat, h: Hash, round: nat, p: Hash)
    requires RoundByWalk(d, roots, committed, rootRound, h, round)
    requires h in d.vertices && h !in committed && p in d.vertices[h].parents
    ensures RoundByWalk(d, roots, committed, rootRound, p, if round >= 1 then round - 1 else 0)
    ensures p in Mentioned(d, roots)
  {
    var path :| |path| >= 1 && path[0] in roots && path[|path| - 1] == h && Walk(d.vertices, committed, path)
                && round == if rootRound >= |path| - 1 then rootRound - (|path| - 1) else 0;
    var longer := path + [p];
    assert longer[0] in roots && longer[|longer| - 1] == p && Walk(d.vertices, committed, longer);
  }

  /** The entries pushed for the unvisited parents of a vertex, last parent on top. */
  function Pushed(parents: seq<Hash>, round: nat, visited: set<Hash>): (entries: seq<(Hash, nat)>)
    ensures forall e :: e in entries ==> e.0 in parents && e.1 == round
    ensures forall p :: p in parents && p !in visited ==> (p, round) in entries
  {
    if parents == [] then []
    else (if parents[0] !in visited then [(parents[0], round)] else []) + Pushed(parents[1..], round, visited)
  }

  /** One vertex popped and its parents pushed keeps the traversal complete and justified. */
  lemma PopKeepsTraversal(
    d: Dag, roots: seq<Hash>, committed: set<Hash>, rootRound: nat, visited: set<Hash>,
    rest: seq<(Hash, nat)>, top: (Hash, nat), pushed: seq<(Hash, nat)>)
    requires Traversed(d, roots, committed, visited, rest + [top])
    requires Justified(d, roots, committed, rootRound, rest + [top])
    requires top.0 in d.vertices && top.0 !in committed
             ==> pushed == Pushed(d.vertices[top.0].parents, if top.1 >= 1 then top.1 - 1 else 0, visited + {top.0})
    requires !(top.0 in d.vertices && top.0 !in committed) ==> pushed == []
    ensures Traversed(d, roots, committed, visited + {top.0}, rest + pushed)
    ensures Justified(d, roots, committed, rootRound, rest + pushed)
  {
    var visited', stack' := visited + {top.0}, rest + pushed;
    assert top in rest + [top];
    forall root | root in roots ensures root in visited' || exists e :: e in stack' && e.0 == root {
      if root !in visited' {
        var e :| e in rest + [top] && e.0 == root;
        assert e in stack';
      }
    }
    forall h, p | h in visited' && h in d.vertices && h !in committed && p in d.vertices[h].parents
      ensures p in visited' || exists e :: e in stack' && e.0 == p
    {
      if p !in visited' {
        if h == top.0 {
          assert (p, if top.1 >= 1 then top.1 - 1 else 0) in pushed;
          assert (p, if top.1 >= 1 then top.1 - 1 else 0) in stack';
        } else {
          var e :| e in rest + [top] && e.0 == p;
          assert e in stack';
        }
      }
    }
    forall e | e in stack' ensures e.0 in Mentioned(d, roots) && RoundByWalk(d, roots, committed, rootRound, e.0, e.1) {
      if e in rest {
        assert e in rest + [top];
      } else {
        StepDown(d, roots, committed, rootRound, top.0, top.1, e.0);
      }
    }
  }

  lemma RootsJustified(d: Dag, roots: seq<Hash>, committed: set<Hash>, rootRound: nat, stack: seq<(Hash, nat)>)
    requires |stack| == |roots| && forall k :: 0 <= k < |roots| ==> stack[k] == (roots[k], rootRound)
    ensures Traversed(d, roots, committed, {}, stack) && Justified(d, roots, committed, rootRound, stack)
  {
    forall root | root in roots ensures exists e :: e in stack && e.0 == root {
      var k :| 0 <= k < |roots| && roots[k] == root;
      assert stack[k] in stack;
    }
    forall e | e in stack ensures e.0 in Mentioned(d, roots) && RoundByWalk(d, roots, committed, rootRound, e.0, e.1) {
      var path := [e.0];
      assert path[0] in roots && Walk(d.vertices, committed, path);
    }
  }

  lemma FullyTraversed(d: Dag, roots: seq<Hash>, committed: set<Hash>, visited: set<Hash>, h: Hash)
    requires Traversed(d, roots, committed, visited, [])
    ensures Met(d.vertices, roots, committed, h) ==> h in visited
  {
    if Met(d.vertices, roots, committed, h) {
      var root :| root in roots && Reaches(d.vertices, committed, root, h);
      var path :| |path| >= 1 && path[0] == root && path[|path| - 1] == h && Walk(d.vertices, committed, path);
      ClosedContainsReached(d.vertices, committed, path, visited);
    }
  }

  /** The visited uncommitted vertices, and the visited hashes nobody here holds. */
  ghost predicate Sorted(d: Dag, roots: seq<Hash>, committed: set<Hash>, rootRound: nat, visited: set<Hash>,
                         found: set<Hash>, missing: set<(Hash, nat)>)
  {
    && (forall h :: h in visited ==> Met(d.vertices, roots, committed, h))
    && (forall h :: h in found <==> h in visited && h in d.vertices && h !in committed)
    && (forall e :: e in missing ==> e.0 in visited && e.0 !in d.vertices && e.0 !in committed
                                     && RoundByWalk(d, roots, committed, rootRound, e.0, e.1))
    && (forall h :: h in visited && h !in d.vertices && h !in committed ==> exists e :: e in missing && e.0 == h)
  }

  /** Visiting one more justified hash files it under found, missing or neither. */
  lemma VisitKeepsSorted(d: Dag, roots: seq<Hash>, committed: set<Hash>, rootRound: nat, visited: set<Hash>,
                         found: set<Hash>, missing: set<(Hash, nat)>, top: (Hash, nat))
    requires Sorted(d, roots, committed, rootRound, visited, found, missing)
    requires RoundByWalk(d, roots, committed, rootRound, top.0, top.1)
    ensures Sorted(d, roots, committed, rootRound, visited + {top.0},
                   if top.0 in d.vertices && top.0 !in committed then found + {top.0} else found,
                   if top.0 !in d.vertices && top.0 !in committed then missing + {top} else missing)
  {
    WalkedIsMet(d, roots, committed, rootRound, top.0, top.1);
    var missing' := if top.0 !in d.vertices && top.0 !in committed then missing + {top} else missing;
    forall h | h in visited + {top.0} && h !in d.vertices && h !in committed
      ensures exists e :: e in missing' && e.0 == h
    {
      if h == top.0 {
        assert top in missing';
      } else {
        var e :| e in missing && e.0 == h;
        assert e in missing';
      }
    }
  }

  method AttemptCommitProjection(
    d: Dag, roots: seq<Hash>, committed: set<Hash>, rootRound: nat) returns (attempt: Attempt)
    ensures forall e :: e in attempt.missing ==>
              Gap(d, roots, committed, e.0) && RoundByWalk(d, roots, committed, rootRound, e.0, e.1)
    ensures forall h :: Gap(d, roots, committed, h) ==> exists e :: e in attempt.missing && e.0 == h
    ensures attempt.missing != {} ==> attempt.ordered == []
    ensures attempt.missing == {} ==>
              Canonical(d.vertices, attempt.ordered) && Elements(attempt.ordered) == Uncommitted(d, roots, committed)
  {
    var found, missing, visited := Search(d, roots, committed, rootRound);
    if missing != {} {
      return Attempt([], missing);
    }
    assert found == Uncommitted(d, roots, committed);
    var ordered := SortCanonical(d.vertices, found);
    return Attempt(ordered, {});
  }

  /** The depth-first traversal behind a projection. */
  method Search(d: Dag, roots: seq<Hash>, committed: set<Hash>, rootRound: nat)
    returns (found: set<Hash>, missing: set<(Hash, nat)>, ghost visited: set<Hash>)
    ensures Sorted(d, roots, committed, rootRound, visited, found, missing)
    ensures forall h :: Met(d.vertices, roots, committed, h) ==> h in visited
  {
    var seen: set<Hash> := {};
    found, missing := {}, {};
    var stack := seq(|roots|, k requires 0 <= k < |roots| => (roots[k], rootRound));
    RootsJustified(d, roots, committed, rootRound, stack);
    while stack != []
      invariant Traversed(d, roots, committed, seen, stack)
      invariant Justified(d, roots, committed, rootRound, stack)
      invariant Sorted(d, roots, committed, rootRound, seen, found, missing)
      invariant seen <= Mentioned(d, roots)
      decreases Mentioned(d, roots) - seen, |stack|
    {
      var top := stack[|stack| - 1];
      var rest := stack[..|stack| - 1];
      LastSplit(stack);
      stack := rest;
      if top.0 in seen {
        VisitedTop(d, roots, committed, seen, rest, top);
      } else {
        VisitKeepsSorted(d, roots, committed, rootRound, seen, found, missing, top);
        var pushed := [];
        if top.0 !in committed {
          if top.0 !in d.vertices {
            missing := missing + {top};
          } else {
            found := found + {top.0};
            pushed := Pushed(d.vertices[top.0].parents, if top.1 >= 1 then top.1 - 1 else 0, seen + {top.0});
          }
        }
        PopKeepsTraversal(d, roots, committed, rootRound, seen, rest, top, pushed);
        seen := seen + {top.0};
        stack := rest + pushed;
      }
    }
    visited := seen;
    forall h ensures Met(d.vertices, roots, committed, h) ==> h in visited {
      FullyTraversed(d, roots, committed, visited, h);
    }
  }

  lemma VisitedTop(
    d: Dag, roots: seq<Hash>, committed: set<Hash>, visited: set<Hash>, rest: seq<(Hash, nat)>, top: (Hash, nat))
    requires Traversed(d, roots, committed, visited, rest + [top]) && top.0 in visited
    ensures Traversed(d, roots, committed, visited, rest)
  {
    forall root | root in roots ensures root in visited || exists e :: e in rest && e.0 == root {
      if root !in visited {
        var e :| e in rest + [top] && e.0 == root;
        assert e in rest;
      }
    }
    forall h, p | h in visited && h in d.vertices && h !in committed && p in d.vertices[h].parents
      ensures p in visited || exists e :: e in rest && e.0 == p
    {
      if p !in visited {
        var e :| e in rest + [top] && e.0 == p;
        assert e in rest;
      }
    }
  }

  // ----- what the projection means for agreement

  /** Committing a complete projection keeps the committed set closed under parents. */
  lemma ProjectionKeepsClosed(d: Dag, roots: seq<Hash>, committed: set<Hash>)
    requires AncestorClosed(d.vertices, committed)
    requires forall h :: !Gap(d, roots, committed, h)
    ensures AncestorClosed(d.vertices, committed + Uncommitted(d, roots, committed))
  {
    var grown := committed + Uncommitted(d, roots, committed);
    forall h, p | h in grown && h in d.vertices && p in d.vertices[h].parents ensures p in grown {
      if h !in committed {
        var root :| root in roots && Reaches(d.vertices, committed, root, h);
        ReachesParent(d.vertices, committed, root, h, p);
        assert Met(d.vertices, roots, committed, p);
        assert !Gap(d, roots, committed, p);
      }
    }
  }

  /** Without a gap, what is met locally is what is met in the whole universe. */
  lemma LocalWalksSuffice(universe: Vertices, d: Dag, roots: seq<Hash>, committed: set<Hash>, h: Hash)
    requires PartOf(universe, d)
    requires forall g :: !Gap(d, roots, committed, g)
    ensures Met(d.vertices, roots, committed, h) <==> Met(universe, roots, committed, h)
  {
    if Met(d.vertices, roots, committed, h) {
      var root :| root in roots && Reaches(d.vertices, committed, root, h);
      var path :| |path| >= 1 && path[0] == root && path[|path| - 1] == h && Walk(d.vertices, committed, path);
      assert Walk(universe, committed, path);
      assert Reaches(universe, committed, root, h);
    }
    if Met(universe, roots, committed, h) {
      var root :| root in roots && Reaches(universe, committed, root, h);
      var path :| |path| >= 1 && path[0] == root && path[|path| - 1] == h && Walk(universe, committed, path);
      UniverseWalkIsLocal(universe, d, roots, committed, path);
    }
  }

  lemma {:induction false} UniverseWalkIsLocal(
    universe: Vertices, d: Dag, roots: seq<Hash>, committed: set<Hash>, path: seq<Hash>)
    requires PartOf(universe, d)
    requires forall g :: !Gap(d, roots, committed, g)
    requires |path| >= 1 && path[0] in roots && Walk(universe, committed, path)
    ensures Met(d.vertices, roots, committed, path[|path| - 1])
  {
    if |path| == 1 {
      ReachesSelf(d.vertices, committed, path[0]);
    } else {
      var shorter := path[..|path| - 1];
      assert Walk(universe, committed, shorter) by {
        forall k | 0 <= k < |shorter| - 1
          ensures shorter[k] in universe && shorter[k] !in committed && shorter[k + 1] in universe[shorter[k]].parents
        {
          assert path[k] in universe && path[k] !in committed && path[k + 1] in universe[path[k]].parents;
        }
      }
      UniverseWalkIsLocal(universe, d, roots, committed, shorter);
      var child, parent := path[|path| - 2], path[|path| - 1];
      assert child in universe && child !in committed && path[(|path| - 2) + 1] in universe[child].parents;
      assert !Gap(d, roots, committed, child);
      var root :| root in roots && Reaches(d.vertices, committed, root, child);
      ReachesParent(d.vertices, committed, root, child, parent);
    }
  }

  /**
   Two validators with different partial DAGs but the same committed set compute, for the same leader,
   the same projection element for element, provided neither misses part of its history.
   */
  lemma ProjectionsAgree(
    universe: Vertices, d1: Dag, d2: Dag, roots: seq<Hash>, committed: set<Hash>, p1: seq<Hash>, p2: seq<Hash>)
    requires PartOf(universe, d1) && PartOf(universe, d2)
    requires forall g :: !Gap(d1, roots, committed, g) && !Gap(d2, roots, committed, g)
    requires Canonical(d1.vertices, p1) && Elements(p1) == Uncommitted(d1, roots, committed)
    requires Canonical(d2.vertices, p2) && Elements(p2) == Uncommitted(d2, roots, committed)
    ensures p1 == p2
  {
    forall h ensures h in Uncommitted(d1, roots, committed) <==> h in Uncommitted(d2, roots, committed) {
      LocalWalksSuffice(universe, d1, roots, committed, h);
      LocalWalksSuffice(universe, d2, roots, committed, h);
      assert !Gap(d1, roots, committed, h) && !Gap(d2, roots, committed, h);
    }
    assert Canonical(universe, p1) && Canonical(universe, p2);
    CanonicalIsUnique(universe, p1, p2);
  }

  /** A canonical order lists the parents of a vertex before the vertex. */
  lemma ParentsComeFirst(c: Committee, universe: Vertices, d: Dag, s: seq<Hash>, i: nat, j: nat)
    requires AdmittedUniverse(c, universe) && PartOf(universe, d) && Canonical(d.vertices, s)
    requires i < |s| && j < |s| && s[i] in d.vertices[s[j]].parents
    ensures i < j
  {
    ParentIsOneBelow(c, universe, s[j], s[i]);
    assert s[i] in d.vertices && s[j] in d.vertices;
    assert j < i ==> Precedes(d.vertices, s[j], s[i]);
  }

  lemma ParentIsOneBelow(c: Committee, universe: Vertices, child: Hash, parent: Hash)
    requires AdmittedUniverse(c, universe) && child in universe && parent in universe[child].parents
    ensures parent in universe && universe[parent].round + 1 == universe[child].round
  {
    assert AdmittedVertex(c, universe, child);
  }

  /** The round reported for a missing vertex is its true round, so fetching the reported range can return it. */
  lemma ReportedRoundIsTrue(
    c: Committee, universe: Vertices, d: Dag, roots: seq<Hash>, committed: set<Hash>, rootRound: nat, h: Hash,
    round: nat)
    requires AdmittedUniverse(c, universe) && PartOf(universe, d)
    requires forall root :: root in roots ==> root in universe && universe[root].round == rootRound
    requires RoundByWalk(d, roots, committed, rootRound, h, round)
    ensures h in universe && universe[h].round == round
  {
    var path :| |path| >= 1 && path[0] in roots && path[|path| - 1] == h && Walk(d.vertices, committed, path)
                && round == if rootRound >= |path| - 1 then rootRound - (|path| - 1) else 0;
    WalkDescends(c, universe, d, committed, path, |path| - 1);
  }

  lemma {:induction false} WalkDescends(
    c: Committee, universe: Vertices, d: Dag, committed: set<Hash>, path: seq<Hash>, k: nat)
    requires AdmittedUniverse(c, universe) && PartOf(universe, d)
    requires k < |path| && path[0] in universe && Walk(d.vertices, committed, path)
    ensures path[k] in universe && universe[path[k]].round + k == universe[path[0]].round
  {
    if k > 0 {
      WalkDescends(c, universe, d, committed, path, k - 1);
      var child := path[k - 1];
      assert child in d.vertices && path[(k - 1) + 1] in d.vertices[child].parents;
      assert AdmittedVertex(c, universe, child);
    }
  }
}
