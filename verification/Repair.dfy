/** Fetching missing vertices by round range, and admitting them one after the other. */
module Repair {
  import opened Seqs
  import opened Quorum
  import opened Dag
  import opened Projection

  // ----- admission of one vertex

  /** `sizeOk`, `signed` and `txsOk` are the verdicts of the size, signature and transaction checks of a vertex. */
  datatype Env = Env(
    epoch: nat, active: set<Author>, sizeOk: Hash -> bool, signed: Hash -> bool, txsOk: Hash -> bool)

  datatype Verdict =
    | Accepted
    | TooLarge
    | WrongEpoch
    | AuthorNotActive
    | BadSignature
    | Equivocation
    | BadTransactions
    | BadRound
    | UnexpectedParents
    | DuplicateParent(parent: Hash)
    | ParentNotFound(parent: Hash)
    | WrongParent(parent: Hash)
    | DuplicateParentAuthor(author: Author)
    | InsufficientParents(actual: nat)

  ghost predicate Equivocates(store: Vertices, h: Hash, v: Vertex)
  {
    exists other | other in store ::
      other != h && store[other].epoch == v.epoch && store[other].round == v.round && store[other].author == v.author
  }

  ghost predicate GoodParent(env: Env, store: Vertices, v: Vertex, p: Hash)
  {
    p in store && store[p].epoch == v.epoch && store[p].round == v.round - 1 && store[p].author in env.active
  }

  ghost predicate OneParentPerAuthor(store: Vertices, parents: seq<Hash>)
  {
    forall i, j | 0 <= i < j < |parents| && parents[i] in store && parents[j] in store ::
      parents[i] != parents[j] && store[parents[i]].author != store[parents[j]].author
  }

  ghost predicate GoodParents(env: Env, store: Vertices, v: Vertex)
  {
    && (forall p :: p in v.parents ==> GoodParent(env, store, v, p))
    && OneParentPerAuthor(store, v.parents)
    && |v.parents| >= RequiredQuorum(|env.active|)
  }

  /** What admission demands of a vertex on its own, apart from the vertices it refers to. */
  ghost predicate Eligible(env: Env, h: Hash, v: Vertex)
  {
    && env.sizeOk(h) && env.signed(h) && env.txsOk(h)
    && v.epoch == env.epoch && v.author in env.active
    && v.round >= 1 && (v.round == 1 ==> v.parents == [])
  }

  ghost predicate Authentic(env: Env, h: Hash, v: Vertex)
  {
    env.sizeOk(h) && v.epoch == env.epoch && v.author in env.active && env.signed(h)
  }

  /** Everything up to the round and the parents is in order. */
  ghost predicate PassesContent(env: Env, store: Vertices, h: Hash, v: Vertex)
  {
    Authentic(env, h, v) && !Equivocates(store, h, v) && env.txsOk(h)
  }

  ghost predicate Admissible(env: Env, store: Vertices, h: Hash, v: Vertex)
  {
    Eligible(env, h, v) && !Equivocates(store, h, v) && (v.round > 1 ==> GoodParents(env, store, v))
  }

  predicate IsParentVerdict(verdict: Verdict)
  {
    verdict.DuplicateParent? || verdict.ParentNotFound? || verdict.WrongParent? || verdict.DuplicateParentAuthor?
    || verdict.InsufficientParents?
  }

  /** What a refusal for its parents says about a vertex. */
  ghost predicate ExplainsParents(env: Env, store: Vertices, v: Vertex, verdict: Verdict)
  {
    match verdict
    case DuplicateParent(p) => exists i, j | 0 <= i < j < |v.parents| :: v.parents[i] == p && v.parents[j] == p
    case ParentNotFound(p) => p in v.parents && p !in store
    case WrongParent(p) => p in v.parents && p in store && !GoodParent(env, store, v, p)
    case DuplicateParentAuthor(a) =>
      exists i, j | 0 <= i < j < |v.parents| && v.parents[i] in store && v.parents[j] in store ::
        store[v.parents[i]].author == a && store[v.parents[j]].author == a
    case InsufficientParents(n) =>
      n == |v.parents| < RequiredQuorum(|env.active|) && OneParentPerAuthor(store, v.parents)
    case _ => true
  }

  method ValidateVertex(env: Env, store: Vertices, h: Hash, v: Vertex) returns (verdict: Verdict)
    ensures verdict.Accepted? <==> Admissible(env, store, h, v)
    ensures verdict.TooLarge? <==> !env.sizeOk(h)
    ensures verdict.WrongEpoch? <==> env.sizeOk(h) && v.epoch != env.epoch
    ensures verdict.AuthorNotActive? <==> env.sizeOk(h) && v.epoch == env.epoch && v.author !in env.active
    ensures verdict.BadSignature? <==>
              env.sizeOk(h) && v.epoch == env.epoch && v.author in env.active && !env.signed(h)
    ensures verdict.Equivocation? <==> Authentic(env, h, v) && Equivocates(store, h, v)
    ensures verdict.BadTransactions? <==> Authentic(env, h, v) && !Equivocates(store, h, v) && !env.txsOk(h)
    ensures verdict.BadRound? <==> PassesContent(env, store, h, v) && v.round == 0
    ensures verdict.UnexpectedParents? <==> PassesContent(env, store, h, v) && v.round == 1 && v.parents != []
    ensures v.round > 1 ==> ExplainsParents(env, store, v, verdict)
  {
    if !env.sizeOk(h) { return TooLarge; }
    if v.epoch != env.epoch { return WrongEpoch; }
    if v.author !in env.active { return AuthorNotActive; }
    if !env.signed(h) { return BadSignature; }
    var conflicting := set other | other in store && other != h && store[other].epoch == v.epoch &&
                                   store[other].round == v.round && store[other].author == v.author;
    assert Equivocates(store, h, v) <==> conflicting != {} by {
      if Equivocates(store, h, v) {
        var other :| other in store && other != h && store[other].epoch == v.epoch &&
                     store[other].round == v.round && store[other].author == v.author;
        assert other in conflicting;
      }
    }
    if conflicting != {} { return Equivocation; }
    if !env.txsOk(h) { return BadTransactions; }
    if v.round == 0 { return BadRound; }
    if v.round == 1 {
      return if v.parents != [] then UnexpectedParents else Accepted;
    }
    verdict := ValidateParents(env, store, v);
  }

  method ValidateParents(env: Env, store: Vertices, v: Vertex) returns (verdict: Verdict)
    requires v.round > 1
    ensures verdict.Accepted? <==> GoodParents(env, store, v)
    ensures verdict.Accepted? || IsParentVerdict(verdict)
    ensures ExplainsParents(env, store, v, verdict)
  {
    var seenHashes: set<Hash>, seenAuthors: set<Author> := {}, {};
    for k := 0 to |v.parents|
      invariant Scanned(env, store, v, k, seenHashes, seenAuthors)
    {
      var refusal := CheckParent(env, store, v, k, seenHashes, seenAuthors);
      if refusal.Some? { return refusal.value; }
      var p := v.parents[k];
      ScanStep(env, store, v, k, seenHashes, seenAuthors);
      seenHashes, seenAuthors := seenHashes + {p}, seenAuthors + {store[p].author};
    }
    assert v.parents[..|v.parents|] == v.parents;
    if |seenAuthors| < RequiredQuorum(|env.active|) { return InsufficientParents(|seenAuthors|); }
    return Accepted;
  }

  /** The next parent in turn: new, stored, of the round before, by an active author not seen yet. */
  method CheckParent(env: Env, store: Vertices, v: Vertex, k: nat, seenHashes: set<Hash>, seenAuthors: set<Author>)
    returns (refusal: Option<Verdict>)
    requires Scanned(env, store, v, k, seenHashes, seenAuthors) && k < |v.parents|
    ensures refusal.None? ==>
              var p := v.parents[k];
              GoodParent(env, store, v, p) && p !in seenHashes && store[p].author !in seenAuthors
    ensures refusal.Some? ==>
              IsParentVerdict(refusal.value) && ExplainsParents(env, store, v, refusal.value) &&
                  !GoodParents(env, store, v)
  {
    var p := v.parents[k];
    assert p in v.parents;
    if p in seenHashes {
      var i := SeenBefore(env, store, v, k, seenHashes, seenAuthors);
      return Some(DuplicateParent(p));
    }
    if p !in store { return Some(ParentNotFound(p)); }
    if !(store[p].epoch == v.epoch && store[p].round == v.round - 1 && store[p].author in env.active) {
      return Some(WrongParent(p));
    }
    if store[p].author in seenAuthors {
      var i := SeenBefore(env, store, v, k, seenHashes, seenAuthors);
      return Some(DuplicateParentAuthor(store[p].author));
    }
    return None;
  }

  ghost predicate Scanned(env: Env, store: Vertices, v: Vertex, k: nat, seenHashes: set<Hash>, seenAuthors: set<Author>)
  {
    && k <= |v.parents|
    && (forall p :: p in v.parents[..k] ==> GoodParent(env, store, v, p))
    && OneParentPerAuthor(store, v.parents[..k])
    && seenHashes == Elements(v.parents[..k])
    && (forall p :: p in v.parents[..k] ==> store[p].author in seenAuthors)
    && (forall a :: a in seenAuthors ==> exists p :: p in v.parents[..k] && store[p].author == a)
    && |seenAuthors| == k
  }

  /** The earlier parent that a repeated hash or author was seen at. */
  lemma SeenBefore(
    env: Env, store: Vertices, v: Vertex, k: nat, seenHashes: set<Hash>, seenAuthors: set<Author>) returns (i: nat)
    requires Scanned(env, store, v, k, seenHashes, seenAuthors) && k < |v.parents|
    requires v.parents[k] in seenHashes || (v.parents[k] in store && store[v.parents[k]].author in seenAuthors)
    ensures i < k && v.parents[i] in store
    ensures v.parents[k] in seenHashes ==> v.parents[i] == v.parents[k]
    ensures v.parents[k] !in seenHashes ==> store[v.parents[i]].author == store[v.parents[k]].author
    ensures !OneParentPerAuthor(store, v.parents)
  {
    var last := v.parents[k];
    var p :| p in v.parents[..k] && if last in seenHashes then p == last else store[p].author == store[last].author;
    i :| 0 <= i < k && v.parents[..k][i] == p;
    assert v.parents[i] == p && p in store;
  }

  lemma ScanStep(env: Env, store: Vertices, v: Vertex, k: nat, seenHashes: set<Hash>, seenAuthors: set<Author>)
    requires Scanned(env, store, v, k, seenHashes, seenAuthors) && k < |v.parents|
    requires GoodParent(env, store, v, v.parents[k])
    requires v.parents[k] !in seenHashes && store[v.parents[k]].author !in seenAuthors
    ensures Scanned(env, store, v, k + 1, seenHashes + {v.parents[k]}, seenAuthors + {store[v.parents[k]].author})
  {
    var p, before, after := v.parents[k], v.parents[..k], v.parents[..k + 1];
    assert after == before + [p];
    assert Elements(after) == Elements(before) + {p};
    forall q | q in before ensures store[q].author != store[p].author && q != p {
    }
    OneParentSnoc(store, before, p);
    assert forall q :: q in after <==> q in before || q == p;
  }

  lemma OneParentSnoc(store: Vertices, parents: seq<Hash>, p: Hash)
    requires OneParentPerAuthor(store, parents)
    requires forall q :: q in parents ==> q in store
    requires p in store && forall q :: q in parents ==> q != p && store[q].author != store[p].author
    ensures OneParentPerAuthor(store, parents + [p])
  {
    forall i, j | 0 <= i < j < |parents| + 1
      ensures (parents + [p])[i] != (parents + [p])[j]
      ensures (parents + [p])[i] in store && (parents + [p])[j] in store
      ensures store[(parents + [p])[i]].author != store[(parents + [p])[j]].author
    {
      assert (parents + [p])[i] == parents[i] && parents[i] in parents;
    }
  }

  // ----- merging the answers of all peers

  datatype Response = Vertices(hashes: seq<Hash>) | Unexpected | Failure

  datatype Merge = Merged(order: seq<Hash>) | NoPeers | AllFailed

  ghost function Returned(responses: seq<Response>): set<Hash>
  {
    set i, h | 0 <= i < |responses| && responses[i].Vertices? && h in responses[i].hashes :: h
  }

  ghost predicate SomeAnswer(responses: seq<Response>)
  {
    exists i :: 0 <= i < |responses| && responses[i].Vertices?
  }

  /** `known` gives the vertex behind each hash; a hash determines its vertex. */
  method RequestVerticesByRange(known: Vertices, responses: seq<Response>) returns (merge: Merge)
    requires Returned(responses) <= known.Keys
    ensures merge.NoPeers? <==> responses == []
    ensures merge.Merged? <==> SomeAnswer(responses)
    ensures merge.Merged? ==> Canonical(known, merge.order) && Elements(merge.order) == Returned(responses)
  {
    if responses == [] { return NoPeers; }
    var merged: seq<Hash>, seen: set<Hash>, okPeers := [], {}, 0;
    for i := 0 to |responses|
      invariant seen == Elements(merged) == Returned(responses[..i])
      invariant okPeers > 0 <==> SomeAnswer(responses[..i])
    {
      assert responses[..i + 1] == responses[..i] + [responses[i]];
      match responses[i] {
        case Vertices(hashes) =>
          okPeers := okPeers + 1;
          for j := 0 to |hashes|
            invariant seen == Elements(merged) == Returned(responses[..i]) + Elements(hashes[..j])
          {
            assert hashes[..j + 1] == hashes[..j] + [hashes[j]];
            if hashes[j] !in seen {
              seen := seen + {hashes[j]};
              merged := merged + [hashes[j]];
            }
          }
          assert hashes[..|hashes|] == hashes;
          ReturnedSnoc(responses[..i], responses[i]);
          assert responses[..i + 1][i].Vertices?;
        case _ =>
          ReturnedSnoc(responses[..i], responses[i]);
          assert forall k :: 0 <= k < i ==> responses[..i + 1][k] == responses[..i][k];
      }
    }
    assert responses[..|responses|] == responses;
    if okPeers == 0 { return AllFailed; }
    var order := SortCanonical(known, Elements(merged));
    return Merged(order);
  }

  lemma ReturnedSnoc(responses: seq<Response>, r: Response)
    ensures Returned(responses + [r]) == Returned(responses) + if r.Vertices? then Elements(r.hashes) else {}
    ensures SomeAnswer(responses + [r]) <==> SomeAnswer(responses) || r.Vertices?
  {
    var all := responses + [r];
    assert all[|responses|] == r;
    assert forall i :: 0 <= i < |responses| ==> all[i] == responses[i];
    forall h | h in Returned(responses) + if r.Vertices? then Elements(r.hashes) else {}
      ensures h in Returned(all)
    {
      if h in Returned(responses) {
        var i :| 0 <= i < |responses| && responses[i].Vertices? && h in responses[i].hashes;
        assert all[i].Vertices? && h in all[i].hashes;
      }
    }
    if SomeAnswer(responses) {
      var i :| 0 <= i < |responses| && responses[i].Vertices?;
      assert all[i].Vertices?;
    }
  }

  // ----- admitting the merged vertices in order

  ghost function AdmitAll(env: Env, known: Vertices, store: Vertices, order: seq<Hash>): Vertices
    requires forall i :: 0 <= i < |order| ==> order[i] in known
  {
    if order == [] then store
    else
      var last := |order| - 1;
      var before := AdmitAll(env, known, store, order[..last]);
      if Admissible(env, before, order[last], known[order[last]])
      then before[order[last] := known[order[last]]]
      else before
  }

  /** How many of the offered vertices are accepted. */
  ghost function AcceptedCount(env: Env, known: Vertices, store: Vertices, order: seq<Hash>): (n: nat)
    requires forall i :: 0 <= i < |order| ==> order[i] in known
    ensures n <= |order|
  {
    if order == [] then 0
    else
      var last := |order| - 1;
      var before := AdmitAll(env, known, store, order[..last]);
      AcceptedCount(env, known, store, order[..last]) +
        if Admissible(env, before, order[last], known[order[last]]) then 1 else 0
  }

  /** The live DAG holds exactly the stored vertices. */
  ghost predicate Synced(store: Vertices, dag: Dag)
  {
    dag.vertices.Keys == store.Keys
  }

  class Node {
    var store: Vertices
    var dag: Dag

    constructor ()
      ensures store == map[] && dag == EmptyDag()
    {
      store, dag := map[], EmptyDag();
    }

    /** An accepted vertex reaches the store first and the live DAG next. */
    method PutVertex(env: Env, h: Hash, v: Vertex) returns (verdict: Verdict)
      requires ValidDag(dag)
      modifies this
      ensures verdict.Accepted? <==> Admissible(env, old(store), h, v)
      ensures store == if verdict.Accepted? then old(store)[h := v] else old(store)
      ensures dag == if verdict.Accepted? then Insert(old(dag), h, v) else old(dag)
      ensures ValidDag(dag) && (old(Synced(store, dag)) ==> Synced(store, dag))
    {
      verdict := ValidateVertex(env, store, h, v);
      InsertAlongside(store, dag, h, v);
      if verdict.Accepted? {
        store := store[h := v];
        dag := Insert(dag, h, v);
      }
    }

    /** Vertices are offered one after the other in the merged order. */
    method RepairMissingVertices(env: Env, known: Vertices, merge: Merge) returns (accepted: nat)
      requires merge.Merged? ==> forall i :: 0 <= i < |merge.order| ==> merge.order[i] in known
      requires ValidDag(dag)
      modifies this
      ensures !merge.Merged? ==> accepted == 0 && store == old(store) && dag == old(dag)
      ensures merge.Merged? ==> store == AdmitAll(env, known, old(store), merge.order)
      ensures merge.Merged? ==> accepted == AcceptedCount(env, known, old(store), merge.order)
      ensures ValidDag(dag)
      ensures old(Synced(store, dag)) ==> Synced(store, dag)
    {
      accepted := 0;
      if !merge.Merged? { return; }
      var order := merge.order;
      ghost var synced := Synced(store, dag);
      for i := 0 to |order|
        invariant accepted == AcceptedCount(env, known, old(store), order[..i])
        invariant store == AdmitAll(env, known, old(store), order[..i])
        invariant ValidDag(dag) && (synced ==> Synced(store, dag))
      {
        AdmitNext(env, known, old(store), order, i);
        var verdict := PutVertex(env, order[i], known[order[i]]);
        if verdict.Accepted? {
          accepted := accepted + 1;
        }
      }
      assert order[..|order|] == order;
    }
  }

  lemma InsertAlongside(store: Vertices, d: Dag, h: Hash, v: Vertex)
    requires ValidDag(d)
    ensures ValidDag(Insert(d, h, v))
    ensures Synced(store, d) ==> Synced(store[h := v], Insert(d, h, v))
  {
    InsertKeepsValid(d, h, v);
  }

  lemma AdmitNext(env: Env, known: Vertices, store: Vertices, order: seq<Hash>, i: nat)
    requires i < |order| && forall k :: 0 <= k < |order| ==> order[k] in known
    ensures var before := AdmitAll(env, known, store, order[..i]);
            AdmitAll(env, known, store, order[..i + 1]) ==
            if Admissible(env, before, order[i], known[order[i]]) then before[order[i] := known[order[i]]] else before
    ensures AcceptedCount(env, known, store, order[..i + 1]) ==
            AcceptedCount(env, known, store, order[..i]) +
            if Admissible(env, AdmitAll(env, known, store, order[..i]), order[i], known[order[i]]) then 1 else 0
  {
    assert order[..i + 1][..i] == order[..i];
  }

  // ----- one pass is enough

  /** A store is part of what is known and holds the parents of all it holds. */
  ghost predicate ClosedStore(known: Vertices, store: Vertices)
  {
    && (forall h :: h in store ==> h in known && store[h] == known[h])
    && AncestorClosed(store, store.Keys)
  }

  /** A vertex that passes every check but the presence of its parents. */
  ghost predicate Sound(env: Env, known: Vertices, h: Hash)
  {
    h in known && Eligible(env, h, known[h]) && (known[h].round > 1 ==> GoodParents(env, known, known[h]))
  }

  ghost predicate SameSlot(known: Vertices, h: Hash, o: Hash)
    requires h in known && o in known
  {
    known[o].epoch == known[h].epoch && known[o].round == known[h].round && known[o].author == known[h].author
  }

  /** Returned vertices in the merged order; no sound one of them shares its slot with another or with a stored one. */
  ghost predicate NoConflicts(env: Env, known: Vertices, store: Vertices, order: seq<Hash>)
  {
    && Canonical(known, order)
    && forall h, o | h in order && o in known && o != h && Sound(env, known, h) &&
                     (o in store || (o in order && Sound(env, known, o))) :: !SameSlot(known, h, o)
  }

  /** Everything met walking down from `h` until stored vertices is stored, or returned and sound. */
  ghost predicate HistoryAtHand(env: Env, known: Vertices, store: Vertices, order: seq<Hash>, h: Hash)
  {
    forall a :: Reaches(known, store.Keys, h, a) ==> a in store || (a in order && Sound(env, known, a))
  }

  // ----- the store stays closed, whatever is returned

  lemma AddedStaysClosed(known: Vertices, now: Vertices, h: Hash)
    requires ClosedStore(known, now) && h in known && forall p :: p in known[h].parents ==> p in now
    ensures ClosedStore(known, now[h := known[h]])
  {
  }

  lemma AdmittedParentsStored(env: Env, store: Vertices, h: Hash, v: Vertex)
    requires Admissible(env, store, h, v)
    ensures forall p :: p in v.parents ==> p in store
  {
    forall p | p in v.parents ensures p in store {
      assert v.round > 1 ==> GoodParent(env, store, v, p);
    }
  }

  /** A pass over any answer of any peers leaves a store in which every vertex has its parents. */
  lemma {:induction false} PassKeepsClosed(env: Env, known: Vertices, store: Vertices, order: seq<Hash>)
    requires ClosedStore(known, store) && forall i :: 0 <= i < |order| ==> order[i] in known
    ensures ClosedStore(known, AdmitAll(env, known, store, order))
  {
    if order != [] {
      var last := |order| - 1;
      PassKeepsClosed(env, known, store, order[..last]);
      var before := AdmitAll(env, known, store, order[..last]);
      if Admissible(env, before, order[last], known[order[last]]) {
        AdmittedParentsStored(env, before, order[last], known[order[last]]);
        AddedStaysClosed(known, before, order[last]);
      }
    }
  }

  // ----- admission gives what the agreement results start from

  function AuthorsOf(store: Vertices, parents: seq<Hash>): (authors: seq<Author>)
    requires forall p :: p in parents ==> p in store
  {
    seq(|parents|, i requires 0 <= i < |parents| => store[parents[i]].author)
  }

  lemma DifferentAuthors(store: Vertices, h: Hash, v: Vertex)
    requires forall p :: p in v.parents ==> p in store && p != h
    requires OneParentPerAuthor(store, v.parents)
    ensures |ParentAuthors(store[h := v], h)| == |v.parents|
  {
    var authors := AuthorsOf(store, v.parents);
    assert Distinct(authors) by {
      forall i, j | 0 <= i < j < |authors| ensures authors[i] != authors[j] {
        assert v.parents[i] in v.parents && v.parents[j] in v.parents;
      }
    }
    DistinctCardinality(authors);
    forall a ensures a in Elements(authors) <==> a in ParentAuthors(store[h := v], h) {
      if a in authors {
        var i :| 0 <= i < |authors| && authors[i] == a;
        assert v.parents[i] in v.parents;
      }
      if a in ParentAuthors(store[h := v], h) {
        var p :| p in v.parents && p in store && store[p].author == a;
        var i :| 0 <= i < |v.parents| && v.parents[i] == p;
        assert authors[i] == a;
      }
    }
    assert Elements(authors) == ParentAuthors(store[h := v], h);
  }

  /**
   The check on the parents is exactly what the agreement results assume of a vertex, for parents listed
   once and by validators.
   */
  lemma AdmissibleIff(c: Committee, env: Env, store: Vertices, h: Hash, v: Vertex)
    requires env.active == c.validators && h !in store
    ensures Admissible(env, store, h, v) <==>
            && Eligible(env, h, v) && !Equivocates(store, h, v)
            && AdmittedVertex(c, store[h := v], h) && Distinct(v.parents)
            && forall p :: p in v.parents ==> p in store && store[p].author in c.validators
  {
    var after := store[h := v];
    if Admissible(env, store, h, v) {
      if v.round > 1 {
        GoodIsAdmitted(c, env, store, h, v);
      }
    } else if && Eligible(env, h, v) && !Equivocates(store, h, v) && AdmittedVertex(c, after, h) && Distinct(v.parents)
              && v.round > 1 && forall p :: p in v.parents ==> p in store && store[p].author in c.validators {
      AdmittedIsGood(c, env, store, h, v);
    }
  }

  lemma GoodIsAdmitted(c: Committee, env: Env, store: Vertices, h: Hash, v: Vertex)
    requires env.active == c.validators && h !in store && v.round > 1 && GoodParents(env, store, v)
    ensures AdmittedVertex(c, store[h := v], h) && Distinct(v.parents)
    ensures forall p :: p in v.parents ==> p in store && store[p].author in c.validators
  {
    forall p | p in v.parents ensures p in store && p != h && store[p].author in c.validators {
      assert GoodParent(env, store, v, p);
    }
    assert Distinct(v.parents) by {
      forall i, j | 0 <= i < j < |v.parents| ensures v.parents[i] != v.parents[j] {
        assert v.parents[i] in v.parents && v.parents[j] in v.parents;
      }
    }
    DifferentAuthors(store, h, v);
    forall p, q | p in v.parents && q in v.parents && store[p].author == store[q].author ensures p == q {
      var i :| 0 <= i < |v.parents| && v.parents[i] == p;
      var j :| 0 <= j < |v.parents| && v.parents[j] == q;
      assert i == j;
    }
  }

  lemma AdmittedIsGood(c: Committee, env: Env, store: Vertices, h: Hash, v: Vertex)
    requires env.active == c.validators && h !in store && v.round > 1 && v.epoch == env.epoch
    requires AdmittedVertex(c, store[h := v], h) && Distinct(v.parents)
    requires forall p :: p in v.parents ==> p in store && store[p].author in c.validators
    ensures GoodParents(env, store, v)
  {
    var after := store[h := v];
    forall p | p in v.parents ensures GoodParent(env, store, v, p) {
      assert after[p] == store[p];
    }
    forall i, j | 0 <= i < j < |v.parents| && v.parents[i] in store && v.parents[j] in store
      ensures v.parents[i] != v.parents[j] && store[v.parents[i]].author != store[v.parents[j]].author
    {
      assert v.parents[i] in v.parents && v.parents[j] in v.parents;
      assert after[v.parents[i]] == store[v.parents[i]] && after[v.parents[j]] == store[v.parents[j]];
    }
    DifferentAuthors(store, h, v);
  }

  /** A store of which every vertex meets the assumption of the agreement results. */
  ghost predicate AdmittedStore(c: Committee, store: Vertices)
  {
    forall h :: h in store ==> store[h].author in c.validators && AdmittedVertex(c, store, h)
  }

  lemma LaterVertexKeepsAdmitted(c: Committee, store: Vertices, h: Hash, v: Vertex, x: Hash)
    requires x in store && h !in store && AdmittedVertex(c, store, x)
    ensures AdmittedVertex(c, store[h := v], x)
  {
    assert store[h := v][x] == store[x];
    assert ParentAuthors(store[h := v], x) == ParentAuthors(store, x);
  }

  /** Whatever the peers answered, a pass keeps it so. */
  lemma {:induction false} PassKeepsAdmitted(
    c: Committee, env: Env, known: Vertices, store: Vertices, order: seq<Hash>)
    requires env.active == c.validators && AdmittedStore(c, store)
    requires ClosedStore(known, store) && forall i :: 0 <= i < |order| ==> order[i] in known
    ensures AdmittedStore(c, AdmitAll(env, known, store, order))
  {
    if order != [] {
      var last := |order| - 1;
      PassKeepsAdmitted(c, env, known, store, order[..last]);
      PassKeepsClosed(env, known, store, order[..last]);
      var before, h := AdmitAll(env, known, store, order[..last]), order[last];
      if Admissible(env, before, h, known[h]) {
        AdmissibleKeepsAdmitted(c, env, known, before, h);
      }
    }
  }

  lemma AdmissibleKeepsAdmitted(c: Committee, env: Env, known: Vertices, store: Vertices, h: Hash)
    requires env.active == c.validators && AdmittedStore(c, store) && ClosedStore(known, store)
    requires h in known && Admissible(env, store, h, known[h])
    ensures AdmittedStore(c, store[h := known[h]])
  {
    if h in store {
      assert store[h := known[h]] == store;
    } else {
      AdmissibleIff(c, env, store, h, known[h]);
      forall x | x in store ensures AdmittedVertex(c, store[h := known[h]], x) {
        LaterVertexKeepsAdmitted(c, store, h, known[h], x);
      }
    }
  }

  // ----- an equivocating pair

  lemma {:induction false} PassOnlyAdds(env: Env, known: Vertices, store: Vertices, order: seq<Hash>, i: nat)
    requires i <= |order| && forall k :: 0 <= k < |order| ==> order[k] in known
    ensures forall h :: h in AdmitAll(env, known, store, order[..i]) ==> h in AdmitAll(env, known, store, order)
    ensures forall h :: h in AdmitAll(env, known, store, order) ==> h in store || h in order
    decreases |order|
  {
    if i == |order| {
      assert order[..i] == order;
    }
    if order != [] {
      var last := |order| - 1;
      PassOnlyAdds(env, known, store, order[..last], if i < |order| then i else last);
      assert i < |order| ==> order[..last][..i] == order[..i];
    }
  }

  /** A store without two vertices in one slot never gets two: a pass takes at most one of an equivocating pair. */
  lemma {:induction false} PassKeepsOnePerSlot(env: Env, known: Vertices, store: Vertices, order: seq<Hash>)
    requires ClosedStore(known, store) && forall k :: 0 <= k < |order| ==> order[k] in known
    requires forall h, o | h in store && o in store && h != o :: !SameSlot(known, h, o)
    ensures var after := AdmitAll(env, known, store, order);
            && (forall h :: h in after ==> h in known)
            && forall h, o | h in after && o in after && h != o :: !SameSlot(known, h, o)
  {
    PassKeepsClosed(env, known, store, order);
    if order != [] {
      var last := |order| - 1;
      PassKeepsOnePerSlot(env, known, store, order[..last]);
      PassKeepsClosed(env, known, store, order[..last]);
      var before, h := AdmitAll(env, known, store, order[..last]), order[last];
      if Admissible(env, before, h, known[h]) {
        forall o | o in before && o != h ensures !SameSlot(known, h, o) {
          assert before[o] == known[o] && !Equivocates(before, h, known[h]);
        }
      }
    }
  }

  /** Of an equivocating pair the first in the merged order wins: once it is in, the second is refused. */
  lemma FirstOfPairWins(env: Env, known: Vertices, store: Vertices, order: seq<Hash>, i: nat, j: nat)
    requires ClosedStore(known, store) && forall k :: 0 <= k < |order| ==> order[k] in known
    requires i < j < |order| && order[i] != order[j] && SameSlot(known, order[i], order[j])
    requires order[i] in AdmitAll(env, known, store, order[..j])
    ensures !Admissible(env, AdmitAll(env, known, store, order[..j]), order[j], known[order[j]])
  {
    PassKeepsClosed(env, known, store, order[..j]);
    var now := AdmitAll(env, known, store, order[..j]);
    assert now[order[i]] == known[order[i]];
    assert Equivocates(now, order[j], known[order[j]]);
  }

  // ----- exactly what is accepted

  ghost predicate AdmitFacts(env: Env, known: Vertices, store: Vertices, order: seq<Hash>, k: nat, now: Vertices)
    requires k <= |order|
  {
    && ClosedStore(known, now)
    && (forall h :: h in now <==> h in store || (h in order[..k] && HistoryAtHand(env, known, store, order, h)))
  }

  lemma HistoryOfParent(env: Env, known: Vertices, store: Vertices, order: seq<Hash>, h: Hash, p: Hash)
    requires HistoryAtHand(env, known, store, order, h)
    requires h in known && h !in store && p in known[h].parents
    ensures HistoryAtHand(env, known, store, order, p) && (p in store || p in order)
  {
    ReachesSelf(known, store.Keys, p);
    forall a | Reaches(known, store.Keys, p, a) ensures a in store || (a in order && Sound(env, known, a)) {
      ReachesFromParent(known, store.Keys, h, p, a);
    }
    ReachesFromParent(known, store.Keys, h, p, p);
  }

  lemma OwnHistory(env: Env, known: Vertices, store: Vertices, order: seq<Hash>, h: Hash)
    requires HistoryAtHand(env, known, store, order, h) && h !in store
    ensures h in order && Sound(env, known, h)
  {
    ReachesSelf(known, store.Keys, h);
  }

  lemma StoredHistory(env: Env, known: Vertices, store: Vertices, order: seq<Hash>, h: Hash)
    requires h in store
    ensures HistoryAtHand(env, known, store, order, h)
  {
    forall a | Reaches(known, store.Keys, h, a) ensures a == h {
      var path :| |path| >= 1 && path[0] == h && path[|path| - 1] == a && Walk(known, store.Keys, path);
      ClosedContainsReached(known, store.Keys, path, {h});
    }
  }

  lemma HistoryFromParents(env: Env, known: Vertices, store: Vertices, order: seq<Hash>, h: Hash)
    requires h in known && (h in store || (h in order && Sound(env, known, h)))
    requires forall p :: p in known[h].parents ==> HistoryAtHand(env, known, store, order, p)
    ensures HistoryAtHand(env, known, store, order, h)
  {
    forall a | Reaches(known, store.Keys, h, a) ensures a in store || (a in order && Sound(env, known, a)) {
      var path :| |path| >= 1 && path[0] == h && path[|path| - 1] == a && Walk(known, store.Keys, path);
      if |path| > 1 {
        assert path[0 + 1] in known[path[0]].parents;
        WalkTail(known, store.Keys, path);
        assert Reaches(known, store.Keys, path[1], a);
      }
    }
  }

  lemma WalkTail(known: Vertices, cut: set<Hash>, path: seq<Hash>)
    requires |path| > 1 && Walk(known, cut, path)
    ensures Walk(known, cut, path[1..])
    ensures Reaches(known, cut, path[1], path[|path| - 1])
  {
    var rest := path[1..];
    forall k | 0 <= k < |rest| - 1
      ensures rest[k] in known && rest[k] !in cut && rest[k + 1] in known[rest[k]].parents
    {
      assert rest[k] == path[k + 1] && rest[k + 1] == path[(k + 1) + 1];
      assert path[k + 1] in known && path[k + 1] !in cut && path[(k + 1) + 1] in known[path[k + 1]].parents;
    }
    assert |rest| >= 1 && rest[0] == path[1] && rest[|rest| - 1] == path[|path| - 1] && Walk(known, cut, rest);
  }

  /** Parents come before their children in the merged order. */
  lemma ParentComesFirst(env: Env, known: Vertices, order: seq<Hash>, i: nat, p: Hash)
    requires Canonical(known, order) && i < |order| && Sound(env, known, order[i])
    requires p in known[order[i]].parents && p in order
    ensures p in order[..i]
  {
    var j :| 0 <= j < |order| && order[j] == p;
    assert GoodParent(env, known, known[order[i]], p);
    assert known[p].round < known[order[i]].round;
    assert i < j ==> Precedes(known, order[i], order[j]);
    assert order[..i][j] == p;
  }

  /** Admission against a part of what is known implies soundness. */
  lemma AdmissibleIsSound(env: Env, known: Vertices, now: Vertices, h: Hash)
    requires ClosedStore(known, now) && h in known && Admissible(env, now, h, known[h])
    ensures Sound(env, known, h)
  {
    if known[h].round > 1 {
      AdmittedParentsStored(env, now, h, known[h]);
      forall p | p in known[h].parents ensures GoodParent(env, known, known[h], p) {
        assert GoodParent(env, now, known[h], p);
      }
      ParentsDistinct(now, known, known[h].parents);
    }
  }

  lemma ParentsDistinct(now: Vertices, known: Vertices, parents: seq<Hash>)
    requires OneParentPerAuthor(now, parents)
    requires forall p :: p in parents ==> p in now && p in known && now[p] == known[p]
    ensures OneParentPerAuthor(known, parents)
  {
    forall i, j | 0 <= i < j < |parents| && parents[i] in known && parents[j] in known
      ensures parents[i] != parents[j] && known[parents[i]].author != known[parents[j]].author
    {
      assert parents[i] in parents && parents[j] in parents;
    }
  }

  lemma ParentsCarryOver(env: Env, known: Vertices, now: Vertices, v: Vertex)
    requires GoodParents(env, known, v)
    requires forall p :: p in v.parents ==> p in now && p in known && now[p] == known[p]
    ensures GoodParents(env, now, v)
  {
    forall p | p in v.parents ensures GoodParent(env, now, v, p) {
      assert GoodParent(env, known, v, p);
    }
    ParentsDistinct(known, now, v.parents);
  }

  lemma NoEquivocation(env: Env, known: Vertices, store: Vertices, order: seq<Hash>, i: nat, now: Vertices)
    requires NoConflicts(env, known, store, order) && i < |order| && Sound(env, known, order[i])
    requires ClosedStore(known, store) && AdmitFacts(env, known, store, order, i, now)
    ensures !Equivocates(now, order[i], known[order[i]])
  {
    var h := order[i];
    assert h in order;
    forall o | o in now && o != h
      ensures !(now[o].epoch == known[h].epoch && now[o].round == known[h].round && now[o].author == known[h].author)
    {
      assert o in known && now[o] == known[o];
      if o !in store {
        OwnHistory(env, known, store, order, o);
      }
      assert !SameSlot(known, h, o);
    }
  }

  /** The step of the pass: the next vertex is accepted exactly when its history is at hand. */
  lemma NextAcceptedIff(env: Env, known: Vertices, store: Vertices, order: seq<Hash>, i: nat, now: Vertices)
    requires ClosedStore(known, store) && NoConflicts(env, known, store, order) && i < |order|
    requires AdmitFacts(env, known, store, order, i, now)
    ensures order[i] !in store ==>
              (Admissible(env, now, order[i], known[order[i]]) <==> HistoryAtHand(env, known, store, order, order[i]))
  {
    var h := order[i];
    assert h in order;
    if h !in store {
      if HistoryAtHand(env, known, store, order, h) {
        HistoryAdmits(env, known, store, order, i, now);
      }
      if Admissible(env, now, h, known[h]) {
        AdmissibleIsSound(env, known, now, h);
        AdmittedParentsStored(env, now, h, known[h]);
        forall p | p in known[h].parents ensures HistoryAtHand(env, known, store, order, p) {
          if p in store {
            StoredHistory(env, known, store, order, p);
          }
        }
        HistoryFromParents(env, known, store, order, h);
      }
    }
  }

  lemma HistoryAdmits(env: Env, known: Vertices, store: Vertices, order: seq<Hash>, i: nat, now: Vertices)
    requires ClosedStore(known, store) && NoConflicts(env, known, store, order) && i < |order|
    requires AdmitFacts(env, known, store, order, i, now)
    requires order[i] !in store && HistoryAtHand(env, known, store, order, order[i])
    ensures Admissible(env, now, order[i], known[order[i]])
  {
    var h := order[i];
    OwnHistory(env, known, store, order, h);
    forall p | p in known[h].parents ensures p in now && p in known && now[p] == known[p] {
      HistoryOfParent(env, known, store, order, h, p);
      if p !in store {
        ParentComesFirst(env, known, order, i, p);
      }
    }
    NoEquivocation(env, known, store, order, i, now);
    if known[h].round > 1 {
      ParentsCarryOver(env, known, now, known[h]);
    }
  }

  lemma PassStep(env: Env, known: Vertices, store: Vertices, order: seq<Hash>, i: nat, now: Vertices)
    requires ClosedStore(known, store) && NoConflicts(env, known, store, order) && i < |order|
    requires AdmitFacts(env, known, store, order, i, now)
    ensures var h := order[i];
            var next := if Admissible(env, now, h, known[h]) then now[h := known[h]] else now;
            AdmitFacts(env, known, store, order, i + 1, next)
  {
    var h := order[i];
    NextAcceptedIff(env, known, store, order, i, now);
    assert order[..i + 1] == order[..i] + [h];
    if h in store {
      assert now[h] == known[h] && now[h := known[h]] == now;
    } else if Admissible(env, now, h, known[h]) {
      AdmittedParentsStored(env, now, h, known[h]);
      AddedStaysClosed(known, now, h);
    }
  }

  lemma {:induction false} PassKeepsFacts(env: Env, known: Vertices, store: Vertices, order: seq<Hash>, k: nat)
    requires ClosedStore(known, store) && NoConflicts(env, known, store, order) && k <= |order|
    ensures AdmitFacts(env, known, store, order, k, AdmitAll(env, known, store, order[..k]))
  {
    if k == 0 {
      assert order[..0] == [];
    } else {
      PassKeepsFacts(env, known, store, order, k - 1);
      assert order[..k][..k - 1] == order[..k - 1] && order[..k][k - 1] == order[k - 1];
      PassStep(env, known, store, order, k - 1, AdmitAll(env, known, store, order[..k - 1]));
    }
  }

  /**
   A pass over any answers, bad vertices included, accepts exactly the returned vertices whose missing
   history was returned with them and is sound. Only two sound vertices in one slot are excluded.
   */
  lemma RepairAcceptsExactly(env: Env, known: Vertices, store: Vertices, order: seq<Hash>)
    requires ClosedStore(known, store) && NoConflicts(env, known, store, order)
    ensures var after := AdmitAll(env, known, store, order);
            && ClosedStore(known, after)
            && (forall h :: h in after <==> h in store || (h in order && HistoryAtHand(env, known, store, order, h)))
  {
    PassKeepsFacts(env, known, store, order, |order|);
    assert order[..|order|] == order;
  }

  /**
   One pass admits everything if and only if every missing ancestor of the returned vertices was
   returned and sound.
   */
  lemma OnePassIsEnough(env: Env, known: Vertices, store: Vertices, order: seq<Hash>)
    requires ClosedStore(known, store) && NoConflicts(env, known, store, order)
    ensures AdmitAll(env, known, store, order).Keys == store.Keys + Elements(order) <==>
            forall h :: h in order ==> HistoryAtHand(env, known, store, order, h)
  {
    RepairAcceptsExactly(env, known, store, order);
    var after := AdmitAll(env, known, store, order);
    if after.Keys == store.Keys + Elements(order) {
      forall h | h in order ensures HistoryAtHand(env, known, store, order, h) {
        assert h in after.Keys;
        if h in store {
          StoredHistory(env, known, store, order, h);
        }
      }
    }
  }

  /** Peers may answer in any order, repeat each other and fail: the merged order depends on the union only. */
  lemma MergeDependsOnUnion(
    known: Vertices, responses: seq<Response>, others: seq<Response>, a: seq<Hash>, b: seq<Hash>)
    requires Returned(responses) == Returned(others)
    requires Canonical(known, a) && Elements(a) == Returned(responses)
    requires Canonical(known, b) && Elements(b) == Returned(others)
    ensures a == b
  {
    CanonicalIsUnique(known, a, b);
  }
}
