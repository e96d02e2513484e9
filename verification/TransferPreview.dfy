/** The transfer preview and the check repeated on its operation before signing. */
module TransferPreview {
  import opened Seqs
  import opened Text
  import opened Amounts
  import opened CoinSelection

  const MAX_INPUTS: nat := 16
  const OWNER_HEX_LENGTH: nat := 66
  const GAME_MIN_PROOF: string := "proven"
  const DEVNET_MIN_PROOF: string := "soft"
  const PROOF_LADDER: seq<string> := ["pending", "soft", "proven", "finalized"]

  /** Words that are not on the ladder rank lowest. */
  function Rank(proof: string): (r: nat)
    ensures r <= 3
  {
    if proof == "soft" then 1 else if proof == "proven" then 2 else if proof == "finalized" then 3 else 0
  }

  lemma RankIsLadderPosition(proof: string)
    ensures proof in PROOF_LADDER ==> PROOF_LADDER[Rank(proof)] == proof
    ensures proof !in PROOF_LADDER ==> Rank(proof) == Rank(PROOF_LADDER[0])
  {
    assert PROOF_LADDER[0] in PROOF_LADDER && PROOF_LADDER[1] in PROOF_LADDER;
    assert PROOF_LADDER[2] in PROOF_LADDER && PROOF_LADDER[3] in PROOF_LADDER;
  }

  function MinProofForNetwork(kind: string): (gate: string)
    ensures gate in PROOF_LADDER
  {
    assert PROOF_LADDER[1] == DEVNET_MIN_PROOF && PROOF_LADDER[2] == GAME_MIN_PROOF;
    if kind == "devnet" then DEVNET_MIN_PROOF else GAME_MIN_PROOF
  }

  function Gate(requested: string): string
  {
    if requested in PROOF_LADDER then requested else GAME_MIN_PROOF
  }

  /** The words a note may carry to pass the gate asked for; without a known one it is that of the game. */
  lemma GateWords(requested: string, proof: string)
    ensures requested == "pending" ==> Rank(proof) >= Rank(Gate(requested))
    ensures requested == "soft" ==>
              (Rank(proof) >= Rank(Gate(requested)) <==> proof in {"soft", "proven", "finalized"})
    ensures requested == "finalized" ==> (Rank(proof) >= Rank(Gate(requested)) <==> proof == "finalized")
    ensures requested !in {"pending", "soft", "finalized"} ==>
              (Rank(proof) >= Rank(Gate(requested)) <==> proof in {"proven", "finalized"})
  {
    RankIsLadderPosition(requested);
  }

  /** A development network accepts what is soft or better, every other network what is proven or better. */
  lemma NetworkWords(network: string, proof: string)
    ensures network == "devnet" ==>
              (Rank(proof) >= Rank(MinProofForNetwork(network)) <==> proof in {"soft", "proven", "finalized"})
    ensures network != "devnet" ==>
              (Rank(proof) >= Rank(MinProofForNetwork(network)) <==> proof in {"proven", "finalized"})
    ensures Gate(MinProofForNetwork(network)) == MinProofForNetwork(network)
  {
    GateWords(MinProofForNetwork(network), proof);
  }

  // ----- owners

  predicate HexOwner(s: string)
  {
    |s| == OWNER_HEX_LENGTH && forall i :: 0 <= i < |s| ==> IsHex(s[i])
  }

  /** An owner is sixty-six hex digits; the owner of zeros is the one written with zeros only. */
  lemma OwnerText(s: string)
    ensures HexOwner(s) <==> |s| == 66 && forall c :: c in s ==> c in "0123456789abcdefABCDEF"
    ensures AllZeros(Lower(s)) <==> forall c :: c in s ==> c == '0'
  {
    forall c ensures IsHex(c) <==> c in "0123456789abcdefABCDEF" {
      HexTable(c);
    }
    assert forall i :: 0 <= i < |s| ==> s[i] in s && (Lower(s)[i] == '0' <==> s[i] == '0');
  }

  // ----- the preview

  const DEFAULT_TTL_SEC: nat := 300

  /** `ttlSec` and `nonce` have defaults; `nowSec` is the clock reading. */
  datatype Request = Request(
    amount: string,
    owner: string,
    selfOwner: Option<string>,
    minProof: string,
    chainId: Option<string>,
    nowSec: nat,
    ttlSec: Option<nat>,
    nonce: Option<nat>)

  datatype Output = Output(owner: string, amount: nat)

  datatype Reason = NoNotes | Short | TooMany | NoChangeOwner | BelowGate | OverU64 | NotConserved

  datatype Preview = Preview(
    amount: nat,
    owner: string,
    selfOwner: Option<string>,
    selected: seq<Note>,
    totalIn: nat,
    covered: bool,
    worst: string,
    outputs: seq<Output>,
    reasons: seq<Reason>,
    canSubmit: bool)

  /** What is handed on for signing. */
  datatype Operation = Operation(
    chainId: Option<string>, nonce: nat, expiry: nat, inputs: seq<string>, outputs: seq<Output>)

  datatype Outcome =
    | Ready(preview: Preview, operation: Operation)
    | AmountRefused(code: Parsed)
    | OwnerInvalid
    | SelfTransfer

  function Paid(outputs: seq<Output>): nat
  {
    if outputs == [] then 0 else outputs[0].amount + Paid(outputs[1..])
  }

  lemma PaidSteps(outputs: seq<Output>)
    ensures |outputs| == 1 ==> Paid(outputs) == outputs[0].amount
    ensures |outputs| == 2 ==> Paid(outputs) == outputs[0].amount + outputs[1].amount
  {
    if |outputs| == 2 {
      assert outputs[1..][0] == outputs[1] && Paid(outputs[1..][1..]) == 0;
    }
  }

  function SelfOwner(r: Request): Option<string>
  {
    if r.selfOwner.Some? && HexOwner(Trim(r.selfOwner.value)) then Some(Lower(Trim(r.selfOwner.value))) else None
  }

  ghost predicate AllReach(notes: seq<Note>, gate: string)
  {
    forall n :: n in notes ==> Rank(n.proof) >= Rank(gate)
  }

  /** `worst` ranks with the weakest of the notes. */
  ghost predicate Weakest(notes: seq<Note>, worst: string)
  {
    && (forall n :: n in notes ==> Rank(worst) <= Rank(n.proof))
    && (Rank(worst) == 3 || exists n :: n in notes && Rank(n.proof) == Rank(worst))
  }

  /** When a transfer of `amount` out of `notes` may be submitted. */
  ghost predicate Submittable(notes: seq<Note>, amount: nat, hasSelf: bool, gate: string)
  {
    var selected := Selection(notes, amount);
    && selected != []
    && amount <= Sum(selected) <= U64_MAX
    && |selected| <= 16
    && (Sum(selected) > amount ==> hasSelf)
    && AllReach(selected, gate)
  }

  /** Each reason is listed exactly when it applies. */
  ghost predicate ReasonsExact(p: Preview, gate: string)
  {
    && (NoNotes in p.reasons <==> p.selected == [])
    && (Short in p.reasons <==> p.selected != [] && !p.covered)
    && (TooMany in p.reasons <==> p.selected != [] && p.covered && |p.selected| > 16)
    && (NoChangeOwner in p.reasons <==> p.covered && p.totalIn > p.amount && p.selfOwner.None?)
    && (BelowGate in p.reasons <==> p.selected != [] && p.covered && !AllReach(p.selected, gate))
    && (OverU64 in p.reasons <==> p.totalIn > U64_MAX)
    && (NotConserved in p.reasons <==> NoChangeOwner in p.reasons)
  }

  /** The recipient gets the amount, the change goes back to the payer, and nothing is lost or created. */
  ghost predicate Conserves(p: Preview)
  {
    && 1 <= |p.outputs| <= 2 && p.outputs[0] == Output(p.owner, p.amount)
    && Paid(p.outputs) == Sum(p.selected) == p.totalIn
    && (|p.outputs| == 2 <==> p.totalIn > p.amount)
    && (|p.outputs| == 2 ==> Some(p.outputs[1].owner) == p.selfOwner)
  }

  /** The operation spends exactly the notes shown, pays exactly the outputs shown, and expires after now. */
  ghost predicate Describes(op: Operation, r: Request, p: Preview)
  {
    && op.chainId == r.chainId && op.outputs == p.outputs
    && |op.inputs| == |p.selected|
    && (forall i :: 0 <= i < |op.inputs| ==> op.inputs[i] == p.selected[i].commitment)
    && op.expiry > r.nowSec && (r.ttlSec in {None, Some(0)} ==> op.expiry == r.nowSec + 300)
    && (r.ttlSec.Some? && r.ttlSec.value > 0 ==> op.expiry == r.nowSec + r.ttlSec.value)
    && op.nonce == (if r.nonce.Some? then r.nonce.value else 1000 * r.nowSec)
  }

  method BuildTransferPreview(r: Request, notes: seq<Note>) returns (o: Outcome)
    ensures o.AmountRefused? <==> !ParseAmountInput(r.amount).Ok?
    ensures o.OwnerInvalid? <==> !o.AmountRefused? && (!HexOwner(r.owner) || AllZeros(Lower(r.owner)))
    ensures o.SelfTransfer? <==> !o.AmountRefused? && !o.OwnerInvalid? && SelfOwner(r) == Some(Lower(r.owner))
    ensures o.Ready? ==>
              var p := o.preview;
              && ParseAmountInput(r.amount).Ok? && ValidAmount(ParseAmountInput(r.amount).amount)
              && p.amount == Value(ParseAmountInput(r.amount).amount)
              && p.owner == Lower(r.owner) && p.selfOwner == SelfOwner(r) && p.selfOwner != Some(p.owner)
              && p.selected == Selection(notes, p.amount)
              && ReasonsExact(p, Gate(r.minProof)) && (p.canSubmit <==> p.reasons == [])
              && (p.canSubmit <==> Submittable(notes, p.amount, p.selfOwner.Some?, Gate(r.minProof)))
              && (p.canSubmit ==> Conserves(p)) && Describes(o.operation, r, p)
  {
    var parsed := ParseAmountInput(r.amount);
    if !parsed.Ok? { return AmountRefused(parsed); }
    ParsedIsValid(r.amount);
    if !HexOwner(r.owner) { return OwnerInvalid; }
    var owner := Lower(r.owner);
    if AllZeros(owner) { return OwnerInvalid; }
    var self := SelfOwner(r);
    if self == Some(owner) { return SelfTransfer; }
    var p := PreviewFor(Value(parsed.amount), owner, self, Gate(r.minProof), notes);
    var nonce := if r.nonce.Some? then r.nonce.value else r.nowSec * 1000;
    var ttl := if r.ttlSec.Some? && r.ttlSec.value > 0 then r.ttlSec.value else DEFAULT_TTL_SEC;
    return Ready(p, Operation(r.chainId, nonce, r.nowSec + ttl, Commitments(p.selected), p.outputs));
  }

  method PreviewFor(
    amount: nat, owner: string, self: Option<string>, gate: string, notes: seq<Note>) returns (p: Preview)
    ensures p.amount == amount && p.owner == owner && p.selfOwner == self && p.selected == Selection(notes, amount)
    ensures ReasonsExact(p, gate) && (p.canSubmit <==> p.reasons == [])
    ensures p.canSubmit <==> Submittable(notes, amount, self.Some?, gate)
    ensures p.canSubmit ==> Conserves(p)
  {
    var selected, totalIn, covered := SelectNotes(notes, amount);
    var worst := WorstProof(selected);
    var reached := selected != [] && covered && Rank(worst) >= Rank(gate);
    assert selected != [] && covered ==> (reached <==> AllReach(selected, gate));
    var outputs := [Output(owner, amount)];
    if covered && totalIn > amount && self.Some? {
      outputs := outputs + [Output(self.value, totalIn - amount)];
    }
    PaidSteps(outputs);
    var conserved := covered && Paid(outputs) == totalIn;
    var missingSelf := covered && totalIn > amount && self.None?;
    var reasons := ListReasons(selected, totalIn, covered, missingSelf, reached, conserved);
    var canSubmit := reasons == [] && covered && conserved;
    p := Preview(amount, owner, self, selected, totalIn, covered, worst, outputs, reasons, canSubmit);
    NoReasonIn(p, gate);
  }

  method ListReasons(
    selected: seq<Note>, totalIn: nat, covered: bool, missingSelf: bool, reached: bool, conserved: bool)
    returns (reasons: seq<Reason>)
    ensures forall x :: x in reasons <==> Applies(x, selected, totalIn, covered, missingSelf, reached, conserved)
  {
    reasons := [];
    if selected == [] {
      reasons := [NoNotes];
    } else if !covered {
      reasons := [Short];
    } else if |selected| > MAX_INPUTS {
      reasons := [TooMany];
    }
    if missingSelf { reasons := reasons + [NoChangeOwner]; }
    if selected != [] && covered && !reached { reasons := reasons + [BelowGate]; }
    if totalIn > U64_MAX { reasons := reasons + [OverU64]; }
    if covered && !conserved { reasons := reasons + [NotConserved]; }
  }

  ghost predicate Applies(
    x: Reason, selected: seq<Note>, totalIn: nat, covered: bool, missingSelf: bool, reached: bool, conserved: bool)
  {
    match x
    case NoNotes => selected == []
    case Short => selected != [] && !covered
    case TooMany => selected != [] && covered && |selected| > MAX_INPUTS
    case NoChangeOwner => missingSelf
    case BelowGate => selected != [] && covered && !reached
    case OverU64 => totalIn > U64_MAX
    case NotConserved => covered && !conserved
  }

  /** The list is empty exactly when none of the reasons is in it. */
  lemma NoReasonIn(p: Preview, gate: string)
    ensures p.reasons == [] <==> forall r :: r !in p.reasons
  {
    if p.reasons != [] {
      assert p.reasons[0] in p.reasons;
    }
  }

  method WorstProof(selected: seq<Note>) returns (worst: string)
    ensures selected == [] ==> worst == "none"
    ensures selected != [] ==> Weakest(selected, worst) && worst in PROOF_LADDER
  {
    if selected == [] { return "none"; }
    worst := "finalized";
    assert PROOF_LADDER[3] in PROOF_LADDER && PROOF_LADDER[0] in PROOF_LADDER;
    for i := 0 to |selected|
      invariant Weakest(selected[..i], worst) && worst in PROOF_LADDER
    {
      assert selected[..i + 1] == selected[..i] + [selected[i]];
      assert selected[i] in selected[..i + 1];
      if Rank(selected[i].proof) < Rank(worst) {
        worst := if selected[i].proof in PROOF_LADDER then selected[i].proof else "pending";
        RankIsLadderPosition(selected[i].proof);
      }
    }
    assert selected[..|selected|] == selected;
  }

  lemma ParsedIsValid(raw: string)
    requires ParseAmountInput(raw).Ok?
    ensures ValidAmount(ParseAmountInput(raw).amount)
  {
    var d := Unsigned(false, Filter(Kept, Trim(raw))).value;
    ValidateAmountExactly(StripZeros(d.whole));
  }

  lemma SelectedFacts(notes: seq<Note>, amount: nat)
    requires Sum(Selection(notes, amount)) >= amount
    ensures forall n :: n in Selection(notes, amount) ==>
                          n in notes && n.spendable && Sum(Selection(notes, amount)) - amount < n.amount
  {
    SelectionIsAChoice(notes, amount);
    forall n | n in Selection(notes, amount)
      ensures n in notes && n.spendable && Sum(Selection(notes, amount)) - amount < n.amount
    {
      ChangeBelowEveryNote(notes, amount, n);
      assert n in multiset(Selection(notes, amount));
      assert n in Filter(Spendable, notes);
    }
  }

  // ----- when the preview says no although a payment exists

  lemma SelectionWithinTotal(notes: seq<Note>, amount: nat)
    ensures Sum(Selection(notes, amount)) <= Sum(Filter(Spendable, notes))
  {
    var ordered := Sorted(Filter(Spendable, notes));
    var k := Needed(ordered, amount);
    assert ordered == ordered[..k] + ordered[k..];
    SumConcat(ordered[..k], ordered[k..]);
    SumOfMultiset(ordered, Filter(Spendable, notes));
  }

  predicate Passes(n: Note, gate: string)
  {
    Rank(n.proof) >= Rank(gate)
  }

  /** A way to pay with few notes that all pass the gate. */
  ghost predicate PaysThroughGate(notes: seq<Note>, chosen: seq<Note>, amount: nat, gate: string)
  {
    Pays(notes, chosen, amount) && |chosen| <= MAX_INPUTS && AllReach(chosen, gate)
  }

  /** In selection order, a note below the gate among the first sixteen comes before a passing one of some worth. */
  ghost predicate GateBlocked(ordered: seq<Note>, gate: string)
  {
    exists i, j | 0 <= i < j < |ordered| && i < MAX_INPUTS && !Passes(ordered[i], gate) && Passes(ordered[j], gate) ::
      ordered[j].amount > 0
  }

  /** The notes of a choice that pass the gate are worth no more than a prefix after which nothing of worth passes. */
  lemma {:induction false} PassingWithinPrefix(ordered: seq<Note>, chosen: seq<Note>, gate: string, i: nat)
    requires i <= |ordered| && multiset(chosen) <= multiset(ordered) && AllReach(chosen, gate)
    requires forall j :: i <= j < |ordered| && Passes(ordered[j], gate) ==> ordered[j].amount == 0
    ensures Sum(chosen) <= Sum(ordered[..i])
    decreases |ordered|
  {
    if ordered == [] {
      MultisetSize(multiset(chosen), multiset(ordered));
    } else {
      var head, tail := ordered[0], ordered[1..];
      var next := if i == 0 then 0 else i - 1;
      assert forall j :: 0 <= j < |tail| ==> tail[j] == ordered[j + 1];
      if i > 0 {
        PrefixSum(ordered, i - 1);
      }
      if head in chosen {
        var at :| 0 <= at < |chosen| && chosen[at] == head;
        RestFits(ordered, chosen, at);
        WithoutSum(chosen, at);
        PassingWithinPrefix(tail, chosen[..at] + chosen[at + 1..], gate, next);
        assert tail[..0] == [] && ordered[..0] == [];
      } else {
        NotHead(ordered, chosen);
        PassingWithinPrefix(tail, chosen, gate, next);
        assert tail[..0] == [] && ordered[..0] == [];
      }
    }
  }

  /** Unless the order is blocked, the notes taken for a payable amount all pass. */
  lemma TakenPass(notes: seq<Note>, chosen: seq<Note>, amount: nat, gate: string)
    requires PaysThroughGate(notes, chosen, amount, gate)
    requires !GateBlocked(Sorted(Filter(Spendable, notes)), gate)
    ensures AllReach(Selection(notes, amount), gate) && |Selection(notes, amount)| <= MAX_INPUTS
    ensures Sum(Selection(notes, amount)) >= amount
  {
    var ordered, selected := Sorted(Filter(Spendable, notes)), Selection(notes, amount);
    FewestNotes(notes, chosen, amount);
    NeededReaches(ordered, amount);
    forall n | n in selected ensures Passes(n, gate) {
      var i :| 0 <= i < |selected| && selected[i] == n;
      TakenOnePasses(ordered, chosen, amount, gate, i);
    }
  }

  lemma TakenOnePasses(ordered: seq<Note>, chosen: seq<Note>, amount: nat, gate: string, i: nat)
    requires multiset(chosen) <= multiset(ordered) && Sum(chosen) >= amount && AllReach(chosen, gate)
    requires i < Needed(ordered, amount) && i < MAX_INPUTS && !GateBlocked(ordered, gate)
    ensures Passes(ordered[i], gate)
  {
    if !Passes(ordered[i], gate) {
      assert forall j :: i <= j < |ordered| && Passes(ordered[j], gate) ==> ordered[j].amount == 0;
      PassingWithinPrefix(ordered, chosen, gate, i);
      NeededReaches(ordered, amount);
    }
  }

  /** A blocked order refuses an amount that a handful of passing notes would pay. */
  lemma BlockedRefuses(notes: seq<Note>, gate: string) returns (amount: nat, chosen: seq<Note>)
    requires GateBlocked(Sorted(Filter(Spendable, notes)), gate)
    ensures amount > 0 && PaysThroughGate(notes, chosen, amount, gate)
    ensures !AllReach(Selection(notes, amount), gate)
  {
    var ordered := Sorted(Filter(Spendable, notes));
    var i0, j :| 0 <= i0 < j < |ordered| && i0 < MAX_INPUTS && !Passes(ordered[i0], gate) && Passes(ordered[j], gate)
                 && ordered[j].amount > 0;
    var i := FirstFailing(ordered, gate, i0);
    chosen := ordered[..i] + [ordered[j]];
    amount := Sum(chosen);
    PrefixAndOne(ordered, i, j);
    StopsAfter(ordered, amount, i);
    var selected := Selection(notes, amount);
    assert selected[i] == ordered[i] && selected[i] in selected;
  }

  lemma PrefixAndOne(ordered: seq<Note>, i: nat, j: nat)
    requires i < j < |ordered|
    ensures multiset(ordered[..i] + [ordered[j]]) <= multiset(ordered)
    ensures Sum(ordered[..i] + [ordered[j]]) == Sum(ordered[..i]) + ordered[j].amount
  {
    SumConcat(ordered[..i], [ordered[j]]);
    assert [ordered[j]][1..] == [];
    assert ordered == ordered[..i] + (ordered[i..j] + ([ordered[j]] + ordered[j + 1..]));
  }

  lemma {:induction false} FirstFailing(ordered: seq<Note>, gate: string, bound: nat) returns (i: nat)
    requires bound < |ordered| && !Passes(ordered[bound], gate)
    ensures i <= bound && !Passes(ordered[i], gate) && AllReach(ordered[..i], gate)
  {
    i := 0;
    while Passes(ordered[i], gate)
      invariant i <= bound && AllReach(ordered[..i], gate)
      decreases bound - i
    {
      assert ordered[..i + 1] == ordered[..i] + [ordered[i]];
      i := i + 1;
    }
  }

  /** More is taken than a prefix that does not reach the target. */
  lemma StopsAfter(ordered: seq<Note>, target: nat, i: nat)
    requires i < |ordered| && Sum(ordered[..i]) < target
    ensures Needed(ordered, target) > i
  {
    if Needed(ordered, target) <= i {
      var k := Needed(ordered, target);
      NeededReaches(ordered, target);
      assert ordered[..i] == ordered[..k] + ordered[k..i];
      SumConcat(ordered[..k], ordered[k..i]);
    }
  }

  /**
   Everything that sixteen passing notes can pay is submittable if and only if no note below the gate
   among the first sixteen in selection order stands before a passing note of some worth.
   */
  lemma GateHarmlessIff(notes: seq<Note>, gate: string)
    requires Sum(Filter(Spendable, notes)) <= U64_MAX
    ensures (forall amount: nat, chosen | amount > 0 && PaysThroughGate(notes, chosen, amount, gate) ::
               Submittable(notes, amount, true, gate)) <==>
            !GateBlocked(Sorted(Filter(Spendable, notes)), gate)
  {
    if GateBlocked(Sorted(Filter(Spendable, notes)), gate) {
      var amount, chosen := BlockedRefuses(notes, gate);
      assert !Submittable(notes, amount, true, gate);
    } else {
      forall amount: nat, chosen | amount > 0 && PaysThroughGate(notes, chosen, amount, gate)
        ensures Submittable(notes, amount, true, gate)
      {
        TakenPass(notes, chosen, amount, gate);
        SelectionWithinTotal(notes, amount);
        assert Selection(notes, amount) == [] ==> Sum(Selection(notes, amount)) == 0;
      }
    }
  }

  /** For one amount: what the greedy choice can pay at all is submittable if and only if what it takes passes. */
  lemma SubmittableExactly(notes: seq<Note>, amount: nat, gate: string)
    requires amount > 0 && Sum(Filter(Spendable, notes)) <= U64_MAX
    ensures Submittable(notes, amount, true, gate) <==>
            (exists chosen :: Pays(notes, chosen, amount) && |chosen| <= MAX_INPUTS) &&
                AllReach(Selection(notes, amount), gate)
  {
    LimitedIffAnyLimited(notes, amount, MAX_INPUTS);
    SelectionWithinTotal(notes, amount);
    assert Selection(notes, amount) == [] ==> Sum(Selection(notes, amount)) == 0;
  }

  /** A blocked library: the gate is applied after the choice, not to the candidates. */
  lemma GateAfterChoiceRefusesPayable()
    ensures var notes := [Note("a", 100, "soft", true), Note("b", 60, "proven", true)];
            && Pays(notes, [notes[1]], 50) && AllReach([notes[1]], "proven")
            && !Submittable(notes, 50, true, "proven")
  {
    var large, small := Note("a", 100, "soft", true), Note("b", 60, "proven", true);
    var notes := [large, small];
    assert Filter(Spendable, notes[1..]) == [small] by {
      assert notes[1..][1..] == [];
      assert Filter(Spendable, notes[1..]) == [small] + Filter(Spendable, notes[1..][1..]);
    }
    assert Filter(Spendable, notes) == notes by {
      assert Filter(Spendable, notes) == [large] + [small];
    }
    assert notes[1..] == [small];
    assert Sorted([small]) == [small] by {
      assert [small][1..] == [];
    }
    assert Sorted(notes) == notes by {
      assert InsertNote(large, [small]) == [large] + [small];
    }
    assert Needed(notes, 50) == 1;
    assert Selection(notes, 50) == [large];
    assert large in Selection(notes, 50);
    assert multiset([small]) <= multiset(notes);
    assert Sum([small]) == 60 by {
      assert [small][1..] == [];
    }
  }

  // ----- the second gate

  datatype Verdict =
    | Accepted(worst: string)
    | NoSpendableNote
    | NoteNotFound(input: string)
    | NoteNotSpendable(input: string)
    | ProofBelowGate(worst: string)

  /** The note a commitment resolves to: spelling case is ignored and the last entry wins. */
  function Find(notes: seq<Note>, commitment: string): Option<Note>
  {
    if notes == [] then None
    else if Lower(notes[|notes| - 1].commitment) == Lower(commitment) then Some(notes[|notes| - 1])
    else Find(notes[..|notes| - 1], commitment)
  }

  ghost predicate Usable(notes: seq<Note>, input: string)
  {
    Find(notes, input).Some? && Find(notes, input).value.spendable
  }

  ghost predicate Signable(notes: seq<Note>, inputs: seq<string>, gate: string)
  {
    && inputs != []
    && forall i :: 0 <= i < |inputs| ==>
        Usable(notes, inputs[i]) && Rank(Find(notes, inputs[i]).value.proof) >= Rank(gate)
  }

  ghost predicate AllUsable(notes: seq<Note>, inputs: seq<string>)
  {
    forall i :: 0 <= i < |inputs| ==> Usable(notes, inputs[i])
  }

  ghost predicate FirstUnusable(notes: seq<Note>, inputs: seq<string>, i: nat)
  {
    i < |inputs| && !Usable(notes, inputs[i]) && forall k :: 0 <= k < i ==> Usable(notes, inputs[k])
  }

  /** `worst` ranks with the weakest of the notes behind the inputs. */
  ghost predicate WeakestInput(notes: seq<Note>, inputs: seq<string>, worst: string)
    requires AllUsable(notes, inputs)
  {
    && (forall k :: 0 <= k < |inputs| ==> Rank(Find(notes, inputs[k]).value.proof) >= Rank(worst))
    && (Rank(worst) == 3 || exists k :: 0 <= k < |inputs| && Rank(Find(notes, inputs[k]).value.proof) == Rank(worst))
  }

  method VerifySpendProofs(notes: seq<Note>, inputs: seq<string>, gate: string) returns (v: Verdict)
    ensures v.Accepted? <==> Signable(notes, inputs, gate)
    ensures v.NoSpendableNote? <==> inputs == []
    ensures v.NoteNotFound? ==>
              exists i: nat :: FirstUnusable(notes, inputs, i) && inputs[i] == v.input && Find(notes, v.input).None?
    ensures v.NoteNotSpendable? ==>
              exists i: nat :: FirstUnusable(notes, inputs, i) && inputs[i] == v.input && Find(notes, v.input).Some?
    ensures v.ProofBelowGate? <==> inputs != [] && AllUsable(notes, inputs) && !Signable(notes, inputs, gate)
    ensures v.ProofBelowGate? || v.Accepted? ==> AllUsable(notes, inputs) && WeakestInput(notes, inputs, v.worst)
  {
    var byCommitment: map<string, Note> := map[];
    for i := 0 to |notes|
      invariant forall c :: Lower(c) in byCommitment <==> Find(notes[..i], c).Some?
      invariant forall c :: Lower(c) in byCommitment ==> byCommitment[Lower(c)] == Find(notes[..i], c).value
    {
      assert notes[..i + 1][..i] == notes[..i];
      byCommitment := byCommitment[Lower(notes[i].commitment) := notes[i]];
    }
    assert notes[..|notes|] == notes;
    if inputs == [] { return NoSpendableNote; }
    var worst := "finalized";
    for i := 0 to |inputs|
      invariant forall k :: 0 <= k < i ==>
                Usable(notes, inputs[k]) && Rank(Find(notes, inputs[k]).value.proof) >= Rank(worst)
      invariant Rank(worst) == 3 || exists k :: 0 <= k < i && Rank(Find(notes, inputs[k]).value.proof) == Rank(worst)
    {
      assert !Usable(notes, inputs[i]) ==> FirstUnusable(notes, inputs, i);
      var c := Lower(inputs[i]);
      if c !in byCommitment { return NoteNotFound(inputs[i]); }
      var n := byCommitment[c];
      if !n.spendable { return NoteNotSpendable(inputs[i]); }
      var p := if n.proof in PROOF_LADDER then n.proof else "pending";
      RankIsLadderPosition(n.proof);
      if Rank(p) < Rank(worst) { worst := p; }
    }
    if Rank(worst) < Rank(gate) { return ProofBelowGate(worst); }
    return Accepted(worst);
  }

  ghost predicate DistinctCommitments(notes: seq<Note>)
  {
    forall i, j | 0 <= i < j < |notes| :: Lower(notes[i].commitment) != Lower(notes[j].commitment)
  }

  function Commitments(notes: seq<Note>): seq<string>
  {
    seq(|notes|, i requires 0 <= i < |notes| => notes[i].commitment)
  }

  lemma {:induction false} FindsItself(notes: seq<Note>, i: nat)
    requires DistinctCommitments(notes) && i < |notes|
    ensures Find(notes, notes[i].commitment) == Some(notes[i])
  {
    if i < |notes| - 1 {
      FindsItself(notes[..|notes| - 1], i);
    }
  }

  /**
   Both gates agree on the chosen notes: the preview may have been built from part of the library
   (notes in flight are hidden from it) and the second gate looks at all of it.
   */
  lemma SecondGateAgrees(library: seq<Note>, shown: seq<Note>, amount: nat, gate: string)
    requires DistinctCommitments(library) && forall n :: n in shown ==> n in library
    requires Sum(Selection(shown, amount)) >= amount && Selection(shown, amount) != []
    ensures Signable(library, Commitments(Selection(shown, amount)), gate) <==> AllReach(Selection(shown, amount), gate)
  {
    var selected := Selection(shown, amount);
    var inputs := Commitments(selected);
    SelectedFacts(shown, amount);
    forall i | 0 <= i < |inputs| ensures Find(library, inputs[i]) == Some(selected[i]) && selected[i].spendable {
      assert selected[i] in selected;
      var k :| 0 <= k < |library| && library[k] == selected[i];
      FindsItself(library, k);
    }
    if Signable(library, inputs, gate) {
      forall n | n in selected ensures Rank(n.proof) >= Rank(gate) {
        var i :| 0 <= i < |selected| && selected[i] == n;
        assert Usable(library, inputs[i]);
      }
    }
  }

  /** What can be submitted can be signed at the same gate, and the notes signed for are different notes. */
  lemma SubmittableIsSignable(library: seq<Note>, shown: seq<Note>, amount: nat, hasSelf: bool, gate: string)
    requires DistinctCommitments(library) && forall n :: n in shown ==> n in library
    requires Submittable(shown, amount, hasSelf, gate)
    ensures Signable(library, Commitments(Selection(shown, amount)), gate)
  {
    SecondGateAgrees(library, shown, amount, gate);
  }

  /** The gate of a network is on the ladder, so the preview and the second gate use the same one. */
  lemma NetworkPreviewIsSignable(library: seq<Note>, shown: seq<Note>, amount: nat, hasSelf: bool, network: string)
    requires DistinctCommitments(library) && forall n :: n in shown ==> n in library
    requires Submittable(shown, amount, hasSelf, Gate(MinProofForNetwork(network)))
    ensures Signable(library, Commitments(Selection(shown, amount)), MinProofForNetwork(network))
  {
    SubmittableIsSignable(library, shown, amount, hasSelf, MinProofForNetwork(network));
  }

  /**
   With two entries for one commitment the gates can disagree: the preview takes one, the second gate
   reads the other.
   */
  lemma RepeatedCommitmentSplitsTheGates()
    ensures var library := [Note("ab", 5, "proven", true), Note("AB", 3, "soft", true)];
            AllReach([library[0]], "proven") && !Signable(library, Commitments([library[0]]), "proven")
  {
    var first, second := Note("ab", 5, "proven", true), Note("AB", 3, "soft", true);
    var library := [first, second];
    assert Lower("ab") == "ab" == Lower("AB");
    assert Find(library, "ab") == Some(second);
    assert Commitments([first])[0] == "ab";
  }
}
