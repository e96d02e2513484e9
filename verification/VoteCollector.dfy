/**
 The commit-vote pool of a validator: last-write-wins per (epoch, height, signer),
 bounded, drained per certificate hash.
 */
module VoteCollector {
  import opened Seqs
  import opened Quorum

  const MAX_VOTES: nat := 8192

  type Hash = nat
  type Signer = nat

  datatype CommitVote = CommitVote(
    epoch: nat, commitRound: nat, height: nat, hash: Hash, signer: Signer, signature: nat)

  predicate SameSignerAtHeight(v: CommitVote, w: CommitVote)
  {
    v.epoch == w.epoch && v.height == w.height && v.signer == w.signer
  }

  predicate AlreadyHeld(votes: seq<CommitVote>, vote: CommitVote)
  {
    exists v :: v in votes && SameSignerAtHeight(v, vote) && v.hash == vote.hash
  }

  /** What remains once the oldest quarter (plus one) is dropped from a full pool. */
  function Evicted(votes: seq<CommitVote>): seq<CommitVote>
  {
    if |votes| >= MAX_VOTES then votes[|votes| / 4 + 1..] else votes
  }

  function Added(votes: seq<CommitVote>, vote: CommitVote): seq<CommitVote>
  {
    if AlreadyHeld(votes, vote) then votes
    else Others(Evicted(votes), vote) + [vote]
  }

  /** The votes of other signers or for other heights. */
  function Others(votes: seq<CommitVote>, vote: CommitVote): seq<CommitVote>
  {
    Filter((v: CommitVote) => !SameSignerAtHeight(v, vote), votes)
  }

  function Peeked(votes: seq<CommitVote>, hash: Hash): seq<CommitVote>
  {
    Filter((v: CommitVote) => v.hash == hash, votes)
  }

  function Drained(votes: seq<CommitVote>, hash: Hash): seq<CommitVote>
  {
    Filter((v: CommitVote) => v.hash != hash, votes)
  }

  class Collector {
    var votes: seq<CommitVote>

    ghost predicate Valid()
      reads this
    {
      UniqueKeys(votes) && |votes| <= MAX_VOTES
    }

    constructor ()
      ensures votes == [] && Valid()
    {
      votes := [];
    }

    method AddVote(vote: CommitVote)
      requires Valid()
      modifies this
      ensures votes == Added(old(votes), vote)
      ensures Valid()
      ensures exists v :: v in votes && SameSignerAtHeight(v, vote) && v.hash == vote.hash
      ensures forall v :: v in votes && SameSignerAtHeight(v, vote) ==> v.hash == vote.hash
    {
      AddedInvariant(votes, vote);
      AddedLatest(votes, vote);
      if exists i :: 0 <= i < |votes| && SameSignerAtHeight(votes[i], vote) && votes[i].hash == vote.hash {
        return;
      }
      if |votes| >= MAX_VOTES {
        var dropCount := |votes| / 4 + 1;
        votes := votes[dropCount..];
      }
      votes := Others(votes, vote);
      votes := votes + [vote];
    }

    method DrainForHash(hash: Hash) returns (matched: seq<CommitVote>)
      requires Valid()
      modifies this
      ensures matched == Peeked(old(votes), hash)
      ensures votes == Drained(old(votes), hash)
      ensures multiset(matched) + multiset(votes) == multiset(old(votes))
      ensures Valid()
    {
      DrainedInvariant(votes, hash);
      FilterPartition((v: CommitVote) => v.hash == hash, (v: CommitVote) => v.hash != hash, votes);
      matched := Filter((v: CommitVote) => v.hash == hash, votes);
      votes := Filter((v: CommitVote) => v.hash != hash, votes);
    }

    /** All votes for the hash and no others, in pool order and none of them twice. */
    method PeekForHash(hash: Hash) returns (matched: seq<CommitVote>)
      ensures matched == Peeked(votes, hash)
      ensures forall v :: v in matched <==> v in votes && v.hash == hash
      ensures Subsequence(matched, votes)
      ensures Valid() ==> Distinct(matched)
    {
      PeekedFacts(votes, hash);
      matched := Filter((v: CommitVote) => v.hash == hash, votes);
    }
  }

  // ----- what every operation keeps

  /** At most one vote per (epoch, height, signer). */
  ghost predicate UniqueKeys(votes: seq<CommitVote>)
  {
    forall i, j :: 0 <= i < j < |votes| ==> !SameSignerAtHeight(votes[i], votes[j])
  }

  /** What a caller gets from a peek. */
  lemma PeekedFacts(votes: seq<CommitVote>, hash: Hash)
    ensures forall v :: v in Peeked(votes, hash) <==> v in votes && v.hash == hash
    ensures Subsequence(Peeked(votes, hash), votes)
    ensures forall v: CommitVote :: v.hash == hash ==> multiset(Peeked(votes, hash))[v] == multiset(votes)[v]
    ensures UniqueKeys(votes) ==> UniqueKeys(Peeked(votes, hash)) && Distinct(Peeked(votes, hash))
  {
    FilterIsSubsequence((v: CommitVote) => v.hash == hash, votes);
    FilterPartition((v: CommitVote) => v.hash == hash, (v: CommitVote) => v.hash != hash, votes);
    forall v: CommitVote | v.hash == hash ensures multiset(Peeked(votes, hash))[v] == multiset(votes)[v] {
      var rest := Drained(votes, hash);
      assert v !in rest && multiset(rest)[v] == 0;
    }
    if UniqueKeys(votes) {
      FilterKeepsUniqueKeys((v: CommitVote) => v.hash == hash, votes);
    }
  }

  lemma UniqueKeysMembers(votes: seq<CommitVote>, v: CommitVote, w: CommitVote)
    requires UniqueKeys(votes) && v in votes && w in votes && SameSignerAtHeight(v, w)
    ensures v == w
  {
    var i :| 0 <= i < |votes| && votes[i] == v;
    var j :| 0 <= j < |votes| && votes[j] == w;
    assert !(i < j) && !(j < i);
  }

  lemma {:induction false} FilterKeepsUniqueKeys(p: CommitVote -> bool, votes: seq<CommitVote>)
    requires UniqueKeys(votes)
    ensures UniqueKeys(Filter(p, votes))
  {
    if votes != [] {
      FilterKeepsUniqueKeys(p, votes[1..]);
      var rest := Filter(p, votes[1..]);
      forall k | 0 <= k < |rest| ensures !SameSignerAtHeight(votes[0], rest[k]) {
        assert rest[k] in votes[1..];
        var m :| 0 <= m < |votes[1..]| && votes[1..][m] == rest[k];
        assert votes[m + 1] == rest[k];
      }
    }
  }

  lemma AddedInvariant(votes: seq<CommitVote>, vote: CommitVote)
    requires UniqueKeys(votes) && |votes| <= MAX_VOTES
    ensures UniqueKeys(Added(votes, vote)) && |Added(votes, vote)| <= MAX_VOTES
  {
    if !AlreadyHeld(votes, vote) {
      var kept := Others(Evicted(votes), vote);
      FilterKeepsUniqueKeys((v: CommitVote) => !SameSignerAtHeight(v, vote), Evicted(votes));
      forall k | 0 <= k < |kept| ensures !SameSignerAtHeight(kept[k], vote) {
        assert kept[k] in kept;
      }
    }
  }

  /**
   What adding a vote does to the pool. A vote for the certificate its signer already chose at this height
   changes nothing. Otherwise a full pool first loses its oldest quarter and one; then the signer's choice at
   this height, if any, gives way to the vote, which goes to the end.
   */
  lemma AddedExactly(votes: seq<CommitVote>, vote: CommitVote)
    ensures var after := Added(votes, vote);
            var held := exists v :: v in votes && v.hash == vote.hash && v.signer == vote.signer
                                    && v.height == vote.height && v.epoch == vote.epoch;
            var kept := if |votes| >= 8192 then votes[|votes| / 4 + 1..] else votes;
            && (held ==> after == votes)
            && (!held ==>
                  && after != [] && after[|after| - 1] == vote && Subsequence(after[..|after| - 1], kept)
                  && forall v :: v in after[..|after| - 1] <==>
                       v in kept && (v.signer != vote.signer || v.height != vote.height || v.epoch != vote.epoch))
  {
    if !AlreadyHeld(votes, vote) {
      var others := Others(Evicted(votes), vote);
      FilterIsSubsequence((v: CommitVote) => !SameSignerAtHeight(v, vote), Evicted(votes));
      assert (others + [vote])[..|others|] == others;
    }
  }

  lemma DrainedInvariant(votes: seq<CommitVote>, hash: Hash)
    requires UniqueKeys(votes) && |votes| <= MAX_VOTES
    ensures UniqueKeys(Drained(votes, hash)) && |Drained(votes, hash)| <= MAX_VOTES
  {
    FilterKeepsUniqueKeys((v: CommitVote) => v.hash != hash, votes);
  }

  /** After an add, the pool holds the added vote's choice for its key and no other. */
  lemma AddedLatest(votes: seq<CommitVote>, vote: CommitVote)
    requires UniqueKeys(votes)
    ensures AlreadyHeld(Added(votes, vote), vote)
    ensures forall v :: v in Added(votes, vote) && SameSignerAtHeight(v, vote) ==> v.hash == vote.hash
    ensures forall v :: v in Added(votes, vote) && !SameSignerAtHeight(v, vote) ==> v in votes
  {
    if AlreadyHeld(votes, vote) {
      var w :| w in votes && SameSignerAtHeight(w, vote) && w.hash == vote.hash;
      forall v | v in votes && SameSignerAtHeight(v, vote) ensures v.hash == vote.hash {
        UniqueKeysMembers(votes, v, w);
      }
    } else {
      assert vote in Added(votes, vote);
    }
  }

  /** Only the signer's own earlier choice and, in a full pool, the oldest quarter make room for a vote. */
  lemma AddedKeepsOthers(votes: seq<CommitVote>, vote: CommitVote, i: nat)
    requires i < |votes| && !SameSignerAtHeight(votes[i], vote)
    requires |votes| < MAX_VOTES || i > |votes| / 4
    ensures votes[i] in Added(votes, vote)
  {
    var kept := Evicted(votes);
    assert votes[i] in kept by {
      if |votes| >= MAX_VOTES {
        assert kept[i - (|votes| / 4 + 1)] == votes[i];
      }
    }
  }

  // ----- whole runs

  datatype Op = Add(vote: CommitVote) | Drain(hash: Hash)

  ghost function Apply(votes: seq<CommitVote>, op: Op): seq<CommitVote>
  {
    match op
    case Add(vote) => Added(votes, vote)
    case Drain(hash) => Drained(votes, hash)
  }

  /** The pool after a sequence of operations on an empty pool. */
  ghost function Run(ops: seq<Op>): seq<CommitVote>
  {
    if ops == [] then [] else Apply(Run(ops[..|ops| - 1]), ops[|ops| - 1])
  }

  /** The last vote added for the key of `v`. */
  ghost function LastAdded(ops: seq<Op>, v: CommitVote): Option<CommitVote>
  {
    if ops == [] then None
    else
      var op := ops[|ops| - 1];
      if op.Add? && SameSignerAtHeight(op.vote, v) then Some(op.vote)
      else LastAdded(ops[..|ops| - 1], v)
  }

  /** `v` was added, and it chooses as the last vote added for its key. */
  ghost predicate IsLatest(ops: seq<Op>, v: CommitVote)
  {
    Add(v) in ops && LastAdded(ops, v).Some? && LastAdded(ops, v).value.hash == v.hash
  }

  lemma {:induction false} RunInvariant(ops: seq<Op>)
    ensures UniqueKeys(Run(ops))
    ensures |Run(ops)| <= MAX_VOTES
    ensures forall v :: v in Run(ops) ==> IsLatest(ops, v)
  {
    if ops != [] {
      var before, op := ops[..|ops| - 1], ops[|ops| - 1];
      RunInvariant(before);
      match op
      case Add(vote) =>
        AddedInvariant(Run(before), vote);
        forall v | v in Run(ops) ensures IsLatest(ops, v) {
          AddKeepsLatest(before, vote, v);
          assert ops == before + [op];
        }
      case Drain(hash) =>
        DrainedInvariant(Run(before), hash);
    }
  }

  lemma AddKeepsLatest(ops: seq<Op>, vote: CommitVote, v: CommitVote)
    requires UniqueKeys(Run(ops)) && forall w :: w in Run(ops) ==> IsLatest(ops, w)
    requires v in Added(Run(ops), vote)
    ensures IsLatest(ops + [Add(vote)], v)
  {
    var longer := ops + [Add(vote)];
    assert longer[..|ops|] == ops && longer[|ops|] == Add(vote);
    AddedLatest(Run(ops), vote);
    if v !in Run(ops) {
      assert v == vote;
    }
  }

  /** Draining returns what peeking shows, keeps the others in order and loses nothing. */
  lemma DrainSplitsPool(votes: seq<CommitVote>, hash: Hash)
    ensures multiset(Peeked(votes, hash)) + multiset(Drained(votes, hash)) == multiset(votes)
    ensures Subsequence(Peeked(votes, hash), votes) && Subsequence(Drained(votes, hash), votes)
    ensures Peeked(Drained(votes, hash), hash) == []
    ensures forall other :: other != hash ==> Peeked(Drained(votes, hash), other) == Peeked(votes, other)
  {
    var p, q := (v: CommitVote) => v.hash == hash, (v: CommitVote) => v.hash != hash;
    FilterPartition(p, q, votes);
    FilterIsSubsequence(p, votes);
    FilterIsSubsequence(q, votes);
    FilterNone(p, Drained(votes, hash));
    forall other | other != hash ensures Peeked(Drained(votes, hash), other) == Peeked(votes, other) {
      PeekSurvivesDrain(votes, hash, other);
    }
  }

  lemma {:induction false} PeekSurvivesDrain(votes: seq<CommitVote>, hash: Hash, other: Hash)
    requires other != hash
    ensures Peeked(Drained(votes, hash), other) == Peeked(votes, other)
  {
    if votes != [] {
      PeekSurvivesDrain(votes[1..], hash, other);
      if votes[0].hash != hash {
        assert Drained(votes, hash)[1..] == Drained(votes[1..], hash);
      }
    }
  }

  // ----- counting signatures towards a quorum

  function Position(active: seq<Signer>, signer: Signer): (p: Option<nat>)
    ensures p.Some? <==> signer in active
    ensures p.Some? ==> p.value < |active| && active[p.value] == signer && signer !in active[..p.value]
  {
    if active == [] then None
    else if active[0] == signer then Some(0)
    else match Position(active[1..], signer)
         case None => None
         case Some(k) => Some(k + 1)
  }

  function Counted(votes: seq<CommitVote>, active: seq<Signer>, hash: Hash): seq<CommitVote>
  {
    Filter((v: CommitVote) => v.signer in active, Peeked(votes, hash))
  }

  /** The (validator index, signature) pairs gathered for one certificate hash. */
  function SigPairs(votes: seq<CommitVote>, active: seq<Signer>, hash: Hash): (pairs: seq<(nat, nat)>)
    ensures |pairs| == |Counted(votes, active, hash)|
    ensures forall k :: 0 <= k < |pairs| ==> pairs[k].0 < |active|
  {
    var counted := Counted(votes, active, hash);
    assert forall v :: v in counted ==> v.signer in active;
    seq(|counted|, k requires 0 <= k < |counted| =>
      assert counted[k] in counted;
      (Position(active, counted[k].signer).value, counted[k].signature))
  }

  ghost function SigningIndices(votes: seq<CommitVote>, active: seq<Signer>, hash: Hash): set<nat>
  {
    set v | v in votes && v.hash == hash && v.signer in active :: Position(active, v.signer).value
  }

  /** No signer has two pooled votes for `hash` filed under different heights or epochs. */
  ghost predicate OneSlotPerSigner(votes: seq<CommitVote>, active: seq<Signer>, hash: Hash)
  {
    forall v, w | v in votes && w in votes && v.hash == hash && w.hash == hash &&
                  v.signer == w.signer && v.signer in active :: SameSignerAtHeight(v, w)
  }

  /**
   The number of gathered pairs is the number of distinct signers exactly when no signer's votes
   for the hash are filed under two slots; the pool itself cannot tell, since it is keyed by slot
   and searched by hash.
   */
  lemma SigPairsCountSigners(votes: seq<CommitVote>, active: seq<Signer>, hash: Hash)
    requires UniqueKeys(votes) && Distinct(active)
    ensures |SigningIndices(votes, active, hash)| <= |SigPairs(votes, active, hash)|
    ensures |SigningIndices(votes, active, hash)| == |SigPairs(votes, active, hash)|
            <==> OneSlotPerSigner(votes, active, hash)
    ensures forall i :: i in SigningIndices(votes, active, hash) ==> i < |active|
  {
    var counted, pairs := Counted(votes, active, hash), SigPairs(votes, active, hash);
    FilterKeepsUniqueKeys((v: CommitVote) => v.hash == hash, votes);
    FilterKeepsUniqueKeys((v: CommitVote) => v.signer in active, Peeked(votes, hash));
    var indices := seq(|pairs|, k requires 0 <= k < |pairs| => pairs[k].0);
    assert Elements(indices) == SigningIndices(votes, active, hash) by {
      forall v | v in counted ensures Position(active, v.signer).value in indices {
        var k :| 0 <= k < |counted| && counted[k] == v;
        assert indices[k] == Position(active, v.signer).value;
      }
      forall i | i in indices ensures i in SigningIndices(votes, active, hash) {
        var k :| 0 <= k < |indices| && indices[k] == i;
        assert counted[k] in counted;
      }
    }
    CardinalityDistinct(indices);
    if Distinct(indices) {
      DistinctCardinality(indices);
    }
    forall k | 0 <= k < |indices| ensures Position(active, counted[k].signer) == Some(indices[k]) {
      assert counted[k] in counted;
    }
    DistinctMeansOneSlot(votes, active, hash, indices);
  }

  lemma DistinctMeansOneSlot(votes: seq<CommitVote>, active: seq<Signer>, hash: Hash, indices: seq<nat>)
    requires UniqueKeys(Counted(votes, active, hash))
    requires |indices| == |Counted(votes, active, hash)|
    requires forall k :: 0 <= k < |indices| ==>
               Position(active, Counted(votes, active, hash)[k].signer) == Some(indices[k])
    ensures Distinct(indices) <==> OneSlotPerSigner(votes, active, hash)
  {
    var counted := Counted(votes, active, hash);
    if Distinct(indices) {
      forall v, w | v in votes && w in votes && v.hash == hash && w.hash == hash &&
                    v.signer == w.signer && v.signer in active
        ensures SameSignerAtHeight(v, w)
      {
        assert v in counted && w in counted;
        var i :| 0 <= i < |counted| && counted[i] == v;
        var j :| 0 <= j < |counted| && counted[j] == w;
        assert indices[i] == indices[j];
        assert i == j;
      }
    }
    if OneSlotPerSigner(votes, active, hash) {
      forall i, j | 0 <= i < j < |indices| ensures indices[i] != indices[j] {
        assert counted[i] in counted && counted[j] in counted;
        assert !SameSignerAtHeight(counted[i], counted[j]);
      }
    }
  }

  /** All pooled votes for either hash are filed under one (epoch, height). */
  ghost predicate FiledUnderOneSlot(votes: seq<CommitVote>, h1: Hash, h2: Hash)
  {
    forall v, w :: v in votes && w in votes && v.hash in {h1, h2} && w.hash in {h1, h2} ==>
      v.epoch == w.epoch && v.height == w.height
  }

  /** The validators with a pooled vote for `hash` filed under one (epoch, height). */
  ghost function SlotIndices(votes: seq<CommitVote>, active: seq<Signer>, hash: Hash, epoch: nat, height: nat): set<nat>
  {
    set v | v in votes && v.hash == hash && v.epoch == epoch && v.height == height && v.signer in active ::
      Position(active, v.signer).value
  }

  /** Two certificate hashes competing for one height never both gather a quorum there in one pool. */
  lemma OneQuorumPerHeight(ops: seq<Op>, active: seq<Signer>, h1: Hash, h2: Hash, epoch: nat, height: nat)
    requires Distinct(active) && h1 != h2
    ensures var a := SlotIndices(Run(ops), active, h1, epoch, height);
            var b := SlotIndices(Run(ops), active, h2, epoch, height);
            a !! b && |a| + |b| <= |active| && (|a| < RequiredQuorum(|active|) || |b| < RequiredQuorum(|active|))
  {
    RunInvariant(ops);
    var votes := Run(ops);
    var a, b := SlotIndices(votes, active, h1, epoch, height), SlotIndices(votes, active, h2, epoch, height);
    forall i | i in a ensures i !in b {
      if i in b {
        var v :| v in votes && v.hash == h1 && v.epoch == epoch && v.height == height && v.signer in active
                 && Position(active, v.signer).value == i;
        var w :| w in votes && w.hash == h2 && w.epoch == epoch && w.height == height && w.signer in active
                 && Position(active, w.signer).value == i;
        UniqueKeysMembers(votes, v, w);
      }
    }
    assert forall i :: i in a + b ==> i in Below(|active|);
    SubsetCardinality(a + b, Below(|active|));
    assert |a + b| == |a| + |b|;
  }

  /**
   The count of the assembler, which does not look at heights, is the count at one height exactly when
   every counted vote for the hash is filed there, one hash at a time.
   */
  lemma AssemblerCountsOneHeight(votes: seq<CommitVote>, active: seq<Signer>, hash: Hash, epoch: nat, height: nat)
    requires UniqueKeys(votes) && Distinct(active)
    ensures |SlotIndices(votes, active, hash, epoch, height)| <= |SigPairs(votes, active, hash)|
    ensures |SlotIndices(votes, active, hash, epoch, height)| == |SigPairs(votes, active, hash)| <==>
            forall v :: v in Counted(votes, active, hash) ==> v.epoch == epoch && v.height == height
  {
    var counted := Counted(votes, active, hash);
    var here, elsewhere := Filter((v: CommitVote) => v.epoch == epoch && v.height == height, counted),
                           Filter((v: CommitVote) => !(v.epoch == epoch && v.height == height), counted);
    FilterPartition((v: CommitVote) => v.epoch == epoch && v.height == height,
                    (v: CommitVote) => !(v.epoch == epoch && v.height == height), counted);
    FiledHere(votes, active, hash, epoch, height, here);
    if elsewhere != [] {
      assert elsewhere[0] in elsewhere;
    }
  }

  /** If the assembler counts a quorum for each of two hashes, some vote for them claims another height. */
  lemma TwoQuorumsNeedTwoSlots(ops: seq<Op>, active: seq<Signer>, h1: Hash, h2: Hash)
    requires Distinct(active) && h1 != h2
    requires |SigPairs(Run(ops), active, h1)| >= RequiredQuorum(|active|)
    requires |SigPairs(Run(ops), active, h2)| >= RequiredQuorum(|active|)
    ensures !FiledUnderOneSlot(Run(ops), h1, h2)
  {
    var votes := Run(ops);
    RunInvariant(ops);
    var counted := Counted(votes, active, h1);
    var first := counted[0];
    assert first in counted;
    OneQuorumPerHeight(ops, active, h1, h2, first.epoch, first.height);
    AssemblerCountsOneHeight(votes, active, h1, first.epoch, first.height);
    AssemblerCountsOneHeight(votes, active, h2, first.epoch, first.height);
  }

  ghost function IndicesOf(active: seq<Signer>, votes: seq<CommitVote>): (r: seq<nat>)
    requires forall k :: 0 <= k < |votes| ==> votes[k].signer in active
    ensures |r| == |votes|
  {
    seq(|votes|, k requires 0 <= k < |votes| => Position(active, votes[k].signer).value)
  }

  lemma DifferentSigners(active: seq<Signer>, votes: seq<CommitVote>)
    requires forall k :: 0 <= k < |votes| ==> votes[k].signer in active
    requires forall i, j :: 0 <= i < j < |votes| ==> votes[i].signer != votes[j].signer
    ensures Distinct(IndicesOf(active, votes))
    ensures |Elements(IndicesOf(active, votes))| == |votes|
  {
    DistinctCardinality(IndicesOf(active, votes));
  }

  lemma FiledHere(
    votes: seq<CommitVote>, active: seq<Signer>, hash: Hash, epoch: nat, height: nat, here: seq<CommitVote>)
    requires UniqueKeys(votes) && Distinct(active)
    requires here == Filter((v: CommitVote) => v.epoch == epoch && v.height == height, Counted(votes, active, hash))
    ensures |here| == |SlotIndices(votes, active, hash, epoch, height)|
  {
    FilterKeepsUniqueKeys((v: CommitVote) => v.hash == hash, votes);
    FilterKeepsUniqueKeys((v: CommitVote) => v.signer in active, Peeked(votes, hash));
    FilterKeepsUniqueKeys((v: CommitVote) => v.epoch == epoch && v.height == height, Counted(votes, active, hash));
    forall k | 0 <= k < |here| ensures here[k].epoch == epoch && here[k].height == height && here[k].signer in active {
      assert here[k] in here;
    }
    DifferentSigners(active, here);
    SlotIndicesListed(votes, active, hash, epoch, height, here);
  }

  lemma SlotIndicesListed(
    votes: seq<CommitVote>, active: seq<Signer>, hash: Hash, epoch: nat, height: nat, here: seq<CommitVote>)
    requires forall k :: 0 <= k < |here| ==> here[k].signer in active
    requires here == Filter((v: CommitVote) => v.epoch == epoch && v.height == height, Counted(votes, active, hash))
    ensures Elements(IndicesOf(active, here)) == SlotIndices(votes, active, hash, epoch, height)
  {
    var indices := IndicesOf(active, here);
    forall v | v in here ensures Position(active, v.signer).value in indices {
      var k :| 0 <= k < |here| && here[k] == v;
      assert indices[k] == Position(active, v.signer).value;
    }
    forall i | i in indices ensures i in SlotIndices(votes, active, hash, epoch, height) {
      var k :| 0 <= k < |indices| && indices[k] == i;
      assert here[k] in here;
    }
  }

  /**
   The premise is needed: one signer whose votes for one hash claim three heights is counted three
   times, which reaches the quorum of a four-validator set.
   */
  lemma OneSignerCountedThrice()
    ensures var votes := Run([Add(VoteAt(1)), Add(VoteAt(2)), Add(VoteAt(3))]);
            && |SigPairs(votes, [0, 1, 2, 3], 7)| == RequiredQuorum(4)
            && SigningIndices(votes, [0, 1, 2, 3], 7) == {0}
  {
    RunOfThree(VoteAt(1), VoteAt(2), VoteAt(3));
    SigPairsOfThree(VoteAt(1), VoteAt(2), VoteAt(3));
  }

  /** A vote of signer 0 for certificate 7, claimed for the given height. */
  function VoteAt(height: nat): CommitVote
  {
    CommitVote(1, height, height, 7, 0, 0)
  }

  lemma RunOfThree(a: CommitVote, b: CommitVote, c: CommitVote)
    requires !SameSignerAtHeight(a, b) && !SameSignerAtHeight(a, c) && !SameSignerAtHeight(b, c)
    ensures Run([Add(a), Add(b), Add(c)]) == [a, b, c]
  {
    assert [] + [Add(a)] == [Add(a)] && [] + [a] == [a];
    RunFresh([], a);
    assert [Add(a)] + [Add(b)] == [Add(a), Add(b)] && [a] + [b] == [a, b];
    RunFresh([Add(a)], b);
    assert [Add(a), Add(b)] + [Add(c)] == [Add(a), Add(b), Add(c)] && [a, b] + [c] == [a, b, c];
    RunFresh([Add(a), Add(b)], c);
  }

  lemma RunFresh(ops: seq<Op>, vote: CommitVote)
    requires |Run(ops)| < MAX_VOTES
    requires forall v :: v in Run(ops) ==> !SameSignerAtHeight(v, vote)
    ensures Run(ops + [Add(vote)]) == Run(ops) + [vote]
  {
    assert (ops + [Add(vote)])[..|ops|] == ops;
    FilterAll((v: CommitVote) => !SameSignerAtHeight(v, vote), Run(ops));
  }

  lemma SigPairsOfThree(a: CommitVote, b: CommitVote, c: CommitVote)
    requires a.hash == b.hash == c.hash == 7 && a.signer == b.signer == c.signer == 0
    ensures |SigPairs([a, b, c], [0, 1, 2, 3], 7)| == 3
    ensures SigningIndices([a, b, c], [0, 1, 2, 3], 7) == {0}
  {
    FilterAll((v: CommitVote) => v.hash == 7, [a, b, c]);
    FilterAll((v: CommitVote) => v.signer in [0, 1, 2, 3], [a, b, c]);
    assert a in [a, b, c];
  }
}
