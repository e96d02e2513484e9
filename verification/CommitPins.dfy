/** The per-slot vote pin of a validator: one certificate per (epoch, commit round) until a timed release. */
module CommitPins {
  import opened VoteCollector

  const COMMIT_VOTE_PIN_RELEASE_MS: nat := 5000

  datatype Slot = Slot(epoch: nat, round: nat)

  datatype Pin = Pin(hash: Hash, at: nat)

  type Pins = map<Slot, Pin>

  /** How a vote came to be cast: no pin yet, the pinned certificate again, or a timed-out pin. */
  datatype How = First | Again | Released

  datatype Decision = Refuse | Cast(how: How)

  function Decide(pins: Pins, slot: Slot, hash: Hash, now: nat): Decision
  {
    if slot !in pins then Cast(First)
    else if pins[slot].hash == hash then Cast(Again)
    else if now < pins[slot].at + COMMIT_VOTE_PIN_RELEASE_MS then Refuse
    else Cast(Released)
  }

  function Repinned(pins: Pins, slot: Slot, hash: Hash, now: nat): Pins
  {
    match Decide(pins, slot, hash, now)
    case Refuse => pins
    case Cast(Again) => pins
    case Cast(_) => pins[slot := Pin(hash, now)]
  }

  /** Pins of other epochs and of rounds up to the tip are dropped. */
  function Pruned(pins: Pins, epoch: nat, tip: nat): Pins
  {
    map slot | slot in pins && slot.epoch == epoch && slot.round > tip :: pins[slot]
  }

  /** What pruning does to later decisions: nothing above the tip, and no protection at or below it. */
  lemma PruneDecides(pins: Pins, epoch: nat, tip: nat, slot: Slot, hash: Hash, now: nat)
    ensures Decide(Pruned(pins, epoch, tip), slot, hash, now) ==
            if slot.epoch == epoch && slot.round > tip then Decide(pins, slot, hash, now) else Cast(First)
    ensures Pruned(Pruned(pins, epoch, tip), epoch, tip) == Pruned(pins, epoch, tip)
  {
  }

  class PinTable {
    var pins: Pins

    constructor ()
      ensures pins == map[]
    {
      pins := map[];
    }

    /** Slots of the epoch above the tip decide as before; every other slot is as if never pinned. */
    method Prune(epoch: nat, tip: nat)
      modifies this
      ensures pins == Pruned(old(pins), epoch, tip)
      ensures forall s :: s in pins <==> s in old(pins) && s.epoch == epoch && s.round > tip
      ensures forall s: Slot, hash, now | s.epoch == epoch && s.round > tip ::
                Decide(pins, s, hash, now) == Decide(old(pins), s, hash, now)
      ensures forall s: Slot, hash, now | s.epoch != epoch || s.round <= tip ::
                Decide(pins, s, hash, now) == Cast(First)
    {
      pins := map slot | slot in pins && slot.epoch == epoch && slot.round > tip :: pins[slot];
    }

    /** Ask to sign `hash` for `slot`; the vote may be signed only when the result is a cast. */
    method Request(slot: Slot, hash: Hash, now: nat) returns (decision: Decision)
      requires slot in pins ==> pins[slot].at <= now
      modifies this
      ensures decision == Decide(old(pins), slot, hash, now)
      ensures pins == Repinned(old(pins), slot, hash, now)
      ensures decision.Cast? ==> slot in pins && pins[slot].hash == hash
      ensures decision.Refuse? ==> pins == old(pins) && pins[slot].hash != hash
    {
      if slot in pins && pins[slot].hash != hash {
        if now - pins[slot].at < COMMIT_VOTE_PIN_RELEASE_MS {
          return Refuse;
        }
        pins := pins[slot := Pin(hash, now)];
        return Cast(Released);
      } else if slot in pins {
        return Cast(Again);
      } else {
        pins := pins[slot := Pin(hash, now)];
        return Cast(First);
      }
    }
  }

  // ----- a run of requests for one slot

  datatype Ask = Ask(hash: Hash, now: nat)

  ghost predicate ClockForward(asks: seq<Ask>)
  {
    forall i, j :: 0 <= i < j < |asks| ==> asks[i].now <= asks[j].now
  }

  ghost function PinsAfter(asks: seq<Ask>, slot: Slot): Pins
  {
    if asks == [] then map[]
    else
      var last := asks[|asks| - 1];
      Repinned(PinsAfter(asks[..|asks| - 1], slot), slot, last.hash, last.now)
  }

  /** The number of releases granted along a run. */
  ghost function Releases(asks: seq<Ask>, slot: Slot): nat
  {
    if asks == [] then 0
    else
      var before, last := asks[..|asks| - 1], asks[|asks| - 1];
      Releases(before, slot) +
        if Decide(PinsAfter(before, slot), slot, last.hash, last.now) == Cast(Released) then 1 else 0
  }

  /** The certificates signed for the slot along a run. */
  ghost function SignedFor(asks: seq<Ask>, slot: Slot): set<Hash>
  {
    if asks == [] then {}
    else
      var before, last := asks[..|asks| - 1], asks[|asks| - 1];
      SignedFor(before, slot) +
        if Decide(PinsAfter(before, slot), slot, last.hash, last.now).Cast? then {last.hash} else {}
  }

  ghost function Answer(asks: seq<Ask>, slot: Slot, k: nat): Decision
    requires k < |asks|
  {
    Decide(PinsAfter(asks[..k], slot), slot, asks[k].hash, asks[k].now)
  }

  /** The request was granted for the slot's first certificate, or for another one than before. */
  ghost predicate Switches(asks: seq<Ask>, slot: Slot, k: nat)
    requires k < |asks|
  {
    Answer(asks, slot, k) in {Cast(First), Cast(Released)}
  }

  ghost predicate LastSwitch(asks: seq<Ask>, slot: Slot, c: nat, k: nat)
    requires k <= |asks|
  {
    c < k && Switches(asks, slot, c) && forall j | c < j < k :: !Switches(asks, slot, j)
  }

  lemma PinsSnoc(asks: seq<Ask>, slot: Slot, k: nat)
    requires k < |asks|
    ensures PinsAfter(asks[..k + 1], slot) == Repinned(PinsAfter(asks[..k], slot), slot, asks[k].hash, asks[k].now)
  {
    assert asks[..k + 1][..k] == asks[..k];
  }

  /** The pin names the certificate and the time of the last switch: repeating a vote does not renew it. */
  lemma {:induction false} PinIsLastSwitch(asks: seq<Ask>, slot: Slot, c: nat, k: nat)
    requires k <= |asks| && LastSwitch(asks, slot, c, k)
    ensures PinsAfter(asks[..k], slot) == map[slot := Pin(asks[c].hash, asks[c].now)]
  {
    PinsSnoc(asks, slot, k - 1);
    OnlySlotPinned(asks, slot, k - 1);
    var before := PinsAfter(asks[..k - 1], slot);
    if c < k - 1 {
      PinIsLastSwitch(asks, slot, c, k - 1);
      assert !Switches(asks, slot, k - 1) && slot in before;
    } else {
      assert before[slot := Pin(asks[c].hash, asks[c].now)] == map[slot := Pin(asks[c].hash, asks[c].now)];
    }
  }

  lemma {:induction false} OnlySlotPinned(asks: seq<Ask>, slot: Slot, k: nat)
    requires k <= |asks|
    ensures PinsAfter(asks[..k], slot).Keys <= {slot}
  {
    if k > 0 {
      OnlySlotPinned(asks, slot, k - 1);
      PinsSnoc(asks, slot, k - 1);
    }
  }

  /**
   Over every run, in terms of requests and answers only. The first request is granted. After that the
   answer depends on the last switch: the same certificate is granted again, another one is refused until
   five seconds after the switch and released from then on, however often the vote was repeated meanwhile.
   */
  lemma AnswersOverRuns(asks: seq<Ask>, slot: Slot, k: nat) returns (c: nat)
    requires k < |asks|
    ensures k == 0 ==> Answer(asks, slot, k) == Cast(First)
    ensures k > 0 ==> LastSwitch(asks, slot, c, k)
    ensures k > 0 ==>
              && (Answer(asks, slot, k) == Cast(Again) <==> asks[k].hash == asks[c].hash)
              && (Answer(asks, slot, k) == Refuse <==>
                    asks[k].hash != asks[c].hash && asks[k].now < asks[c].now + 5000)
              && (Answer(asks, slot, k) == Cast(Released) <==>
                    asks[k].hash != asks[c].hash && asks[c].now + 5000 <= asks[k].now)
  {
    c := 0;
    if k > 0 {
      c := SomeSwitch(asks, slot, k);
      PinIsLastSwitch(asks, slot, c, k);
    }
  }

  lemma {:induction false} SomeSwitch(asks: seq<Ask>, slot: Slot, k: nat) returns (c: nat)
    requires 0 < k <= |asks|
    ensures LastSwitch(asks, slot, c, k)
  {
    assert asks[..0] == [] && Switches(asks, slot, 0);
    c := if Switches(asks, slot, k - 1) then k - 1 else 0;
    if !Switches(asks, slot, k - 1) {
      c := SomeSwitch(asks, slot, k - 1);
    }
  }

  /** Requests for one slot leave the answers for every other slot alone. */
  lemma SlotsAreSeparate(pins: Pins, slot: Slot, hash: Hash, now: nat, other: Slot, hash': Hash, now': nat)
    requires other != slot
    ensures Decide(Repinned(pins, slot, hash, now), other, hash', now') == Decide(pins, other, hash', now')
  {
  }

  /**
   Signing for `k + 1` different certificates at one slot takes `k` releases, and `k` releases take
   at least `k` full release windows.
   */
  lemma {:induction false} EquivocationTakesTime(asks: seq<Ask>, slot: Slot)
    requires ClockForward(asks) && asks != []
    ensures slot in PinsAfter(asks, slot)
    ensures PinsAfter(asks, slot)[slot].hash in SignedFor(asks, slot)
    ensures PinsAfter(asks, slot)[slot].at <= asks[|asks| - 1].now
    ensures 1 <= |SignedFor(asks, slot)| <= Releases(asks, slot) + 1
    ensures asks[0].now + COMMIT_VOTE_PIN_RELEASE_MS * Releases(asks, slot) <= PinsAfter(asks, slot)[slot].at
  {
    var before, last := asks[..|asks| - 1], asks[|asks| - 1];
    if before != [] {
      assert before[0] == asks[0];
      EquivocationTakesTime(before, slot);
      var pins := PinsAfter(before, slot);
      if pins[slot].hash == last.hash {
        assert SignedFor(asks, slot) == SignedFor(before, slot);
      }
    } else {
      assert SignedFor(before, slot) == {} && SignedFor(asks, slot) == {last.hash};
    }
  }
}
