/** Quorum arithmetic of the validator set. */
module Quorum {
  import opened Seqs

  function RequiredQuorum(validatorCount: nat): (q: nat)
    ensures 3 * q > 2 * validatorCount
    ensures 3 * (q - 1) <= 2 * validatorCount
  {
    2 * validatorCount / 3 + 1
  }

  /** Two quorums drawn from `n` validators share at least `2q - n` of them. */
  lemma QuorumOverlap<T>(validators: set<T>, a: set<T>, b: set<T>)
    requires a <= validators && b <= validators
    requires |a| >= RequiredQuorum(|validators|) && |b| >= RequiredQuorum(|validators|)
    ensures |a * b| >= 2 * RequiredQuorum(|validators|) - |validators|
    ensures |a * b| >= 1
  {
    assert a + b == a + (b - a) && b == (b - a) + (a * b);
    SubsetCardinality(a + b, validators);
  }

  /** Removing the faulty validators from the overlap still leaves `2q - n - f`, and one at least when `n >= 3f + 1`. */
  lemma HonestOverlap<T>(validators: set<T>, faulty: set<T>, a: set<T>, b: set<T>)
    requires a <= validators && b <= validators
    requires |a| >= RequiredQuorum(|validators|) && |b| >= RequiredQuorum(|validators|)
    requires |validators| >= 3 * |faulty| + 1
    ensures |a * b - faulty| >= 2 * RequiredQuorum(|validators|) - |validators| - |faulty| >= 1
  {
    QuorumOverlap(validators, a, b);
    var both := a * b;
    assert both == (both - faulty) + (both * faulty);
    SubsetCardinality(both * faulty, faulty);
  }
}
