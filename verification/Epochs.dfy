/** The epoch rule of the validator loop against the catch-up formula. */
module Epochs {

  const EPOCH_LENGTH: nat := 100_000

  /** The certificate at the tip: the epoch stamped into it and its chain-global commit round. */
  datatype Tip = NoTip | Tip(epoch: nat, commitRound: nat)

  /** The epoch a node that imports blocks moves to. */
  function CatchUpEpoch(commitRound: nat): nat
  {
    (commitRound + EPOCH_LENGTH - 1) / EPOCH_LENGTH
  }

  /** The first certificate is stamped epoch 1, every other one the epoch its predecessor reached. */
  function Stamp(commitRound: nat): nat
  {
    if commitRound <= 1 then 1 else CatchUpEpoch(commitRound - 1)
  }

  function CrossedBoundary(epoch: nat, tip: Tip): bool
  {
    tip.Tip? && tip.epoch == epoch && tip.commitRound > 1 && (tip.commitRound - 1) % EPOCH_LENGTH == 0
  }

  /** The epoch after one pass of the rule. */
  function AfterPass(epoch: nat, tip: Tip): nat
  {
    if tip.Tip? && tip.epoch > epoch then tip.epoch
    else if CrossedBoundary(epoch, tip) then epoch + 1
    else epoch
  }

  /** One pass of the rule at the end of a validator cycle; `resets` counts how often the live DAG is discarded. */
  method AdvanceEpoch(epoch: nat, tip: Tip) returns (next: nat, resets: nat)
    ensures next == AfterPass(epoch, tip)
    ensures next == epoch + resets
    ensures tip.NoTip? ==> next == epoch
    ensures tip.Tip? && tip.epoch > epoch ==> next == tip.epoch
    ensures tip.Tip? && tip.epoch < epoch ==> next == epoch
    ensures tip.Tip? && tip.epoch == epoch ==>
              (next == epoch + 1 <==> tip.commitRound > 1 && (tip.commitRound - 1) % 100_000 == 0) && next <= epoch + 1
  {
    next, resets := epoch, 0;
    var crossed := CrossedBoundary(epoch, tip);
    var ahead := tip.Tip? && tip.epoch > epoch;
    if crossed || ahead {
      var target := if ahead then tip.epoch else epoch + 1;
      while next < target
        invariant epoch <= next <= target
        invariant next == epoch + resets
      {
        next := next + 1;
        resets := resets + 1;
      }
    }
  }

  function TipAt(commitRound: nat): Tip
  {
    Tip(Stamp(commitRound), commitRound)
  }

  /** The loop's epoch after looking at the tips of these commit rounds, one pass each. */
  ghost function Observed(rounds: seq<nat>): nat
  {
    if rounds == [] then 1
    else AfterPass(Observed(rounds[..|rounds| - 1]), TipAt(rounds[|rounds| - 1]))
  }

  ghost predicate NonDecreasing(rounds: seq<nat>)
  {
    forall i, j :: 0 <= i <= j < |rounds| ==> 1 <= rounds[i] <= rounds[j]
  }

  lemma CatchUpGrows(a: nat, b: nat)
    requires a <= b
    ensures CatchUpEpoch(a) <= CatchUpEpoch(b)
  {
  }

  /** A certificate is stamped with the epoch reached at its round, or one less exactly at a boundary. */
  lemma StampAtBoundary(commitRound: nat)
    requires commitRound >= 1
    ensures CatchUpEpoch(commitRound)
            == if commitRound > 1 && (commitRound - 1) % EPOCH_LENGTH == 0 then Stamp(commitRound) + 1
                else Stamp(commitRound)
  {
  }

  /** The rule never runs ahead of the catch-up formula, whatever subset of tips it gets to see. */
  lemma {:induction false} ObservedIsBounded(rounds: seq<nat>)
    requires NonDecreasing(rounds)
    ensures 1 <= Observed(rounds)
    ensures rounds != [] ==> Observed(rounds) <= CatchUpEpoch(rounds[|rounds| - 1])
  {
    if rounds != [] {
      var before, last := rounds[..|rounds| - 1], rounds[|rounds| - 1];
      ObservedIsBounded(before);
      StampAtBoundary(last);
      if before != [] {
        CatchUpGrows(before[|before| - 1], last);
      }
    }
  }

  /**
   After any earlier tips, two passes at a tip of commit round `c` reach exactly the catch-up epoch of
   `c`, and a further pass changes nothing.
   */
  lemma TwoPassesReachCatchUp(rounds: seq<nat>, c: nat)
    requires NonDecreasing(rounds + [c])
    ensures var twice := AfterPass(AfterPass(Observed(rounds), TipAt(c)), TipAt(c));
            twice == CatchUpEpoch(c) == AfterPass(twice, TipAt(c))
  {
    assert forall i, j :: 0 <= i <= j < |rounds| ==> (rounds + [c])[i] == rounds[i] && (rounds + [c])[j] == rounds[j];
    assert NonDecreasing(rounds);
    ObservedIsBounded(rounds);
    assert 1 <= (rounds + [c])[|rounds|] == c;
    StampAtBoundary(c);
    if rounds != [] {
      assert (rounds + [c])[|rounds| - 1] == rounds[|rounds| - 1];
      CatchUpGrows(rounds[|rounds| - 1], c);
    }
  }

  /** One pass is enough exactly when the loop is not behind the tip's stamp, or the tip is not at a boundary. */
  lemma OnePassSuffices(rounds: seq<nat>, c: nat)
    requires NonDecreasing(rounds + [c])
    ensures AfterPass(Observed(rounds), TipAt(c)) == CatchUpEpoch(c)
            <==> Observed(rounds) >= Stamp(c) || c == 1 || (c - 1) % EPOCH_LENGTH != 0
  {
    assert 1 <= (rounds + [c])[|rounds|];
    TwoPassesReachCatchUp(rounds, c);
    StampAtBoundary(c);
  }
}
