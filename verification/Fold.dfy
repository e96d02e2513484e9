/** Folding certificates of stored blocks into the set of committed vertices. */
module Fold {

  const MAX_FOLD_PER_CALL: nat := 256

  type Hash = nat

  datatype Certificate = Certificate(epoch: nat, vertices: seq<Hash>)

  /** Blocks by height; heights start at 1. */
  type Store = map<nat, Certificate>

  ghost predicate Contiguous(store: Store, tip: nat)
  {
    forall h :: 1 <= h <= tip ==> h in store
  }

  /** All vertices certified at heights `from + 1 .. to`. */
  ghost function CertifiedIn(store: Store, from: nat, to: nat): set<Hash>
  {
    set h, v | from < h <= to && h in store && v in store[h].vertices :: v
  }

  /** How far one call gets: to the tip, the call limit, or just before a missing block. */
  function FoldEnd(store: Store, last: nat, tip: nat, budget: nat): nat
    decreases budget
  {
    if last >= tip || budget == 0 || last + 1 !in store then last
    else FoldEnd(store, last + 1, tip, budget - 1)
  }

  lemma {:induction false} FoldEndBounds(store: Store, last: nat, tip: nat, budget: nat)
    ensures last <= FoldEnd(store, last, tip, budget) <= last + budget
    ensures forall h :: last < h <= FoldEnd(store, last, tip, budget) ==> h in store
    ensures last <= tip ==> FoldEnd(store, last, tip, budget) <= tip
    ensures Contiguous(store, tip) && last <= tip ==>
              FoldEnd(store, last, tip, budget) == if last + budget < tip then last + budget else tip
    decreases budget
  {
    if !(last >= tip || budget == 0 || last + 1 !in store) {
      FoldEndBounds(store, last + 1, tip, budget - 1);
    }
  }

  /** The store has what it had and perhaps more blocks on top. */
  ghost predicate Grows(store: Store, tip: nat, store': Store, tip': nat)
  {
    tip <= tip' && forall h :: h in store ==> h in store' && store'[h] == store[h]
  }

  class CommittedSet {
    var committed: set<Hash>
    var lastFolded: nat
    /** The height already folded when the set was last cleared. */
    ghost var segmentStart: nat

    /**
     Between what was folded in this segment and what was certified in it: a block that this validator
     lands itself is in the set before any fold reaches it.
     */
    ghost predicate Valid(store: Store, tip: nat)
      reads this
    {
      && segmentStart <= lastFolded <= tip
      && (forall h :: segmentStart < h <= lastFolded ==> h in store)
      && CertifiedIn(store, segmentStart, lastFolded) <= committed <= CertifiedIn(store, segmentStart, tip)
    }

    constructor ()
      ensures committed == {} && lastFolded == 0 && segmentStart == 0
      ensures forall store, tip :: Valid(store, tip)
    {
      committed, lastFolded, segmentStart := {}, 0, 0;
    }

    /** Blocks that arrive from elsewhere change nothing here. */
    lemma StoreGrows(store: Store, tip: nat, store': Store, tip': nat)
      requires Valid(store, tip) && Grows(store, tip, store', tip')
      ensures Valid(store', tip')
    {
    }

    /** One bounded call of the fold; `tip` is 0 when the store has no block. */
    method FoldCommitted(store: Store, tip: nat)
      requires Valid(store, tip)
      modifies this
      ensures Valid(store, tip) && segmentStart == old(segmentStart)
      ensures lastFolded == FoldEnd(store, old(lastFolded), tip, MAX_FOLD_PER_CALL)
      ensures committed == old(committed) + CertifiedIn(store, old(lastFolded), lastFolded)
      ensures lastFolded == tip ==> committed == CertifiedIn(store, segmentStart, tip)
      ensures Contiguous(store, tip) ==> (lastFolded == tip <==> tip - old(lastFolded) <= 256)
    {
      var processed: nat := 0;
      FoldEndBounds(store, lastFolded, tip, MAX_FOLD_PER_CALL);
      while lastFolded < tip && processed < MAX_FOLD_PER_CALL
        invariant processed <= MAX_FOLD_PER_CALL && old(lastFolded) <= lastFolded
        invariant segmentStart == old(segmentStart)
        invariant FoldEnd(store, lastFolded, tip, MAX_FOLD_PER_CALL - processed)
                  == FoldEnd(store, old(lastFolded), tip, MAX_FOLD_PER_CALL)
        invariant committed == old(committed) + CertifiedIn(store, old(lastFolded), lastFolded)
        decreases MAX_FOLD_PER_CALL - processed
      {
        var next := lastFolded + 1;
        if next !in store {
          break;
        }
        CertifiedSnoc(store, old(lastFolded), lastFolded, next);
        committed := committed + set v | v in store[next].vertices;
        lastFolded := next;
        processed := processed + 1;
      }
      CertifiedJoin(store, segmentStart, old(lastFolded), lastFolded);
      CertifiedJoin(store, segmentStart, lastFolded, tip);
    }

    /** A block of this validator becomes the new tip; its vertices enter the set at once. */
    method Land(store: Store, tip: nat, certificate: Certificate) returns (store': Store)
      requires Valid(store, tip) && tip + 1 !in store
      modifies this
      ensures store' == store[tip + 1 := certificate] && Valid(store', tip + 1)
      ensures committed == old(committed) + set v | v in certificate.vertices
      ensures lastFolded == old(lastFolded) && segmentStart == old(segmentStart)
    {
      store' := store[tip + 1 := certificate];
      CertifiedSnoc(store', segmentStart, tip, tip + 1);
      StoreGrows(store, tip, store', tip);
      committed := committed + set v | v in certificate.vertices;
    }

    /** Start-up: fold until a call makes no progress. */
    method FoldAtStartup(store: Store, tip: nat) returns (calls: nat)
      requires Valid(store, tip) && lastFolded == 0 && segmentStart == 0
      modifies this
      ensures Valid(store, tip) && segmentStart == 0
      ensures Contiguous(store, tip) ==> lastFolded == tip && calls <= tip / MAX_FOLD_PER_CALL + 2
      ensures Contiguous(store, tip) ==> committed == CertifiedIn(store, 0, tip)
    {
      calls := 0;
      var before := lastFolded;
      FoldEndBounds(store, 0, tip, MAX_FOLD_PER_CALL);
      FoldCommitted(store, tip);
      calls := 1;
      while lastFolded != before
        invariant Valid(store, tip) && segmentStart == 0
        invariant before <= lastFolded <= tip
        invariant lastFolded == before ==> FoldEnd(store, before, tip, MAX_FOLD_PER_CALL) == before
        invariant Contiguous(store, tip) && lastFolded != before ==>
                    lastFolded == tip || lastFolded == calls * MAX_FOLD_PER_CALL
        invariant Contiguous(store, tip) ==> calls <= tip / MAX_FOLD_PER_CALL + 2
        invariant Contiguous(store, tip) && lastFolded != before ==>
                    calls <= (lastFolded + MAX_FOLD_PER_CALL - 1) / MAX_FOLD_PER_CALL
        decreases tip - before, lastFolded - before
      {
        before := lastFolded;
        FoldEndBounds(store, before, tip, MAX_FOLD_PER_CALL);
        FoldCommitted(store, tip);
        calls := calls + 1;
      }
      FoldEndBounds(store, before, tip, MAX_FOLD_PER_CALL);
    }

    /** Entering another epoch discards the set but not the fold position. */
    method ClearForEpoch(store: Store, tip: nat)
      requires Valid(store, tip)
      modifies this
      ensures Valid(store, tip) && committed == {} && segmentStart == lastFolded == old(lastFolded)
    {
      committed := {};
      segmentStart := lastFolded;
    }
  }

  // ----- when set and tip are of one generation

  /** What is known about the set when only the segment, the fold position and the tip are known. */
  ghost predicate Possible(store: Store, segmentStart: nat, last: nat, tip: nat, committed: set<Hash>)
  {
    CertifiedIn(store, segmentStart, last) <= committed <= CertifiedIn(store, segmentStart, tip)
  }

  /** Every block brings vertices that no other block of the store brings. */
  ghost predicate BlocksBringVertices(store: Store, tip: nat)
  {
    Contiguous(store, tip) && NoVertexTwice(store) && forall h :: 1 <= h <= tip ==> store[h].vertices != []
  }

  /**
   The set is the one that belongs to the tip, whatever was landed in between, exactly when the fold has
   reached the tip: then projections and the tip they are bound to are of one generation.
   */
  lemma OneGenerationIff(store: Store, segmentStart: nat, last: nat, tip: nat)
    requires segmentStart <= last <= tip && BlocksBringVertices(store, tip)
    ensures (forall committed | Possible(store, segmentStart, last, tip, committed) ::
               committed == CertifiedIn(store, segmentStart, tip)) <==> last == tip
  {
    if last < tip {
      var behind := CertifiedIn(store, segmentStart, last);
      CertifiedJoin(store, segmentStart, last, tip);
      assert Possible(store, segmentStart, last, tip, behind);
      var v := store[tip].vertices[0];
      assert v in store[tip].vertices && v in CertifiedIn(store, segmentStart, tip) && v !in behind;
    }
  }

  lemma CertifiedSnoc(store: Store, from: nat, to: nat, next: nat)
    requires from <= to && next == to + 1 && next in store
    ensures CertifiedIn(store, from, next) == CertifiedIn(store, from, to) + set v | v in store[next].vertices
  {
  }

  lemma CertifiedJoin(store: Store, a: nat, b: nat, c: nat)
    requires a <= b <= c
    ensures CertifiedIn(store, a, b) + CertifiedIn(store, b, c) == CertifiedIn(store, a, c)
  {
  }

  /** The store only grows, so what was folded stays folded. */
  lemma GrowingStoreKeepsSegment(store: Store, store': Store, from: nat, to: nat)
    requires Contiguous(store, to)
    requires forall h :: h in store ==> h in store' && store'[h] == store[h]
    ensures CertifiedIn(store, from, to) == CertifiedIn(store', from, to)
  {
  }

  // ----- when the set covers the current epoch

  /** Every vertex certified so far by a block of this epoch is filtered from new projections. */
  ghost predicate CoversEpoch(store: Store, epoch: nat, segmentStart: nat, lastFolded: nat)
  {
    forall h, v :: 1 <= h <= lastFolded && h in store && store[h].epoch == epoch && v in store[h].vertices ==>
      v in CertifiedIn(store, segmentStart, lastFolded)
  }

  ghost predicate NoVertexTwice(store: Store)
  {
    forall h, h', v :: h in store && h' in store && v in store[h].vertices && v in store[h'].vertices ==> h == h'
  }

  /**
   The set covers the current epoch exactly when no non-empty block of that epoch had been folded
   before the set was cleared on entering it.
   */
  lemma CoversEpochExactly(store: Store, epoch: nat, segmentStart: nat, lastFolded: nat)
    requires NoVertexTwice(store) && segmentStart <= lastFolded
    ensures CoversEpoch(store, epoch, segmentStart, lastFolded) <==>
            forall h :: 1 <= h <= segmentStart && h in store && store[h].epoch == epoch ==> store[h].vertices == []
  {
    if CoversEpoch(store, epoch, segmentStart, lastFolded) {
      forall h | 1 <= h <= segmentStart && h in store && store[h].epoch == epoch ensures store[h].vertices == [] {
        if store[h].vertices != [] {
          CoveredVertexIsLate(store, epoch, segmentStart, lastFolded, h, store[h].vertices[0]);
        }
      }
    }
  }

  lemma CoveredVertexIsLate(store: Store, epoch: nat, segmentStart: nat, lastFolded: nat, h: nat, v: Hash)
    requires NoVertexTwice(store) && CoversEpoch(store, epoch, segmentStart, lastFolded)
    requires 1 <= h <= lastFolded && h in store && store[h].epoch == epoch && v in store[h].vertices
    ensures h > segmentStart
  {
    assert v in CertifiedIn(store, segmentStart, lastFolded);
  }

  /**
   It can fail: a cycle folds the imported blocks first and only then follows the node into the epoch
   of the last of them, which wipes that epoch's certified vertex again.
   */
  method FollowAfterFold() returns (store: Store, set': CommittedSet)
    ensures set'.Valid(store, 2) && set'.lastFolded == 2 && 2 in store && store[2] == Certificate(2, [20])
    ensures 20 !in set'.committed && !CoversEpoch(store, 2, set'.segmentStart, set'.lastFolded)
  {
    store := map[1 := Certificate(1, [10]), 2 := Certificate(2, [20])];
    set' := new CommittedSet();
    FoldEndBounds(store, 0, 2, MAX_FOLD_PER_CALL);
    set'.FoldCommitted(store, 2);
    assert set'.lastFolded == 2;
    set'.ClearForEpoch(store, 2);
    assert store[2].vertices[0] == 20;
  }
}
