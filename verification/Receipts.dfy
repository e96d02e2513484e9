/** Transfer receipts and the lock they hold on the notes of transfers in flight. */
module Receipts {
  import opened Seqs
  import opened Text

  const MAX_RECEIPTS: nat := 20

  type Digest = string
  type Commitment = string

  /** The amount is absent when it was not a decimal number. */
  datatype Input = Input(commitment: Commitment, amount: Option<nat>)

  datatype Status = Signed | Seen | Included

  datatype Receipt = Receipt(digest: Digest, kind: string, inputs: seq<Input>, status: Status, openedAt: nat)

  /** Receipts in the order they were added; at most one per digest. */
  type Store = seq<Receipt>

  ghost predicate OnePerDigest(store: Store)
  {
    forall i, j | 0 <= i < j < |store| :: store[i].digest != store[j].digest
  }

  predicate InFlight(r: Receipt)
  {
    r.kind == "transfer" && r.status != Included
  }

  function StatusRank(s: Status): nat
  {
    match s
    case Signed => 0
    case Seen => 1
    case Included => 2
  }

  function Position(store: Store, digest: Digest): (i: nat)
    ensures i <= |store|
    ensures i < |store| ==> store[i].digest == digest
    ensures forall k :: 0 <= k < i ==> store[k].digest != digest
  {
    if store == [] || store[0].digest == digest then 0 else 1 + Position(store[1..], digest)
  }

  // ----- the bounded store

  /** The first of the receipts with the smallest opening time. */
  function Oldest(store: Store): (i: nat)
    requires store != []
    ensures i < |store|
    ensures forall k :: 0 <= k < |store| ==> store[i].openedAt <= store[k].openedAt
    ensures forall k :: 0 <= k < i ==> store[i].openedAt < store[k].openedAt
  {
    if |store| == 1 then 0
    else
      var k := Oldest(store[1..]);
      assert forall m :: 0 < m < |store| ==> store[m] == store[1..][m - 1];
      if store[0].openedAt <= store[k + 1].openedAt then 0 else k + 1
  }

  function RemoveAt(store: Store, i: nat): Store
    requires i < |store|
  {
    store[..i] + store[i + 1..]
  }

  function Capped(store: Store): Store
    decreases |store|
  {
    if |store| <= MAX_RECEIPTS then store else Capped(RemoveAt(store, Oldest(store)))
  }

  lemma RemoveAtFacts(store: Store, i: nat)
    requires i < |store| && OnePerDigest(store)
    ensures OnePerDigest(RemoveAt(store, i))
    ensures forall r :: r in RemoveAt(store, i) <==> r in store && r != store[i]
  {
    var rest := RemoveAt(store, i);
    forall r ensures r in rest <==> r in store && r != store[i] {
      if r in store && r != store[i] {
        var k :| 0 <= k < |store| && store[k] == r;
        assert rest[if k < i then k else k - 1] == r;
      }
      if r in rest {
        var k :| 0 <= k < |rest| && rest[k] == r;
        assert store[if k < i then k else k + 1] == r;
        assert store[i].digest != r.digest;
      }
    }
  }

  /** The cap drops only the oldest receipts, and no more of them than it must. */
  lemma {:induction false} CapDropsOldest(store: Store)
    requires OnePerDigest(store)
    ensures |Capped(store)| == if |store| <= 20 then |store| else 20
    ensures OnePerDigest(Capped(store))
    ensures forall r :: r in Capped(store) ==> r in store
    ensures forall d, k | d in store && d !in Capped(store) && k in Capped(store) :: d.openedAt <= k.openedAt
    decreases |store|
  {
    if |store| > MAX_RECEIPTS {
      RemoveAtFacts(store, Oldest(store));
      CapDropsOldest(RemoveAt(store, Oldest(store)));
    }
  }

  // ----- operations

  datatype Change = Changed(store: Store) | InvalidArgument | DuplicateReceipt | UnknownReceipt | InvalidTransition

  function StoreAfter(c: Change, store: Store): Store
  {
    if c.Changed? then c.store else store
  }

  predicate ValidDigest(d: Digest)
  {
    |d| == 64 && forall i :: 0 <= i < |d| ==> IsHex(d[i])
  }

  function Normalized(inputs: seq<Input>): seq<Input>
  {
    Filter((i: Input) => i.commitment != "", inputs)
  }

  function OpenReceipt(store: Store, digest: Digest, kind: string, inputs: seq<Input>, now: nat): Change
  {
    if !ValidDigest(digest) then InvalidArgument
    else if Position(store, digest) < |store| then DuplicateReceipt
    else Changed(Capped(store + [Receipt(digest, kind, Normalized(inputs), Signed, now)]))
  }

  function WithStatus(store: Store, digest: Digest, status: Status): Change
  {
    var i := Position(store, digest);
    if i == |store| then UnknownReceipt
    else if store[i].status == Included then InvalidTransition
    else Changed(store[i := store[i].(status := status)])
  }

  /** `wellFormed` is the verdict on the shape of the imported receipt; its signature is not checked. */
  function ApplySeenReceipt(store: Store, digest: Digest, wellFormed: bool): Change
  {
    var c := WithStatus(store, digest, Seen);
    if c.Changed? && !wellFormed then InvalidArgument else c
  }

  function MarkIncluded(store: Store, digest: Digest): Change
  {
    WithStatus(store, digest, Included)
  }

  /** A change on its way to the store. */
  datatype Write =
    | Open(digest: Digest, kind: string, inputs: seq<Input>, now: nat)
    | See(digest: Digest, wellFormed: bool)
    | Include(digest: Digest)

  function Apply(w: Write, store: Store): Change
  {
    match w
    case Open(digest, kind, inputs, now) => OpenReceipt(store, digest, kind, inputs, now)
    case See(digest, wellFormed) => ApplySeenReceipt(store, digest, wellFormed)
    case Include(digest) => MarkIncluded(store, digest)
  }

  // ----- the lock

  /** The inputs of all transfers in flight, in order. */
  function LockedInputs(store: Store): seq<Input>
  {
    if store == [] then []
    else
      var before, last := LockedInputs(store[..|store| - 1]), store[|store| - 1];
      if InFlight(last) then before + last.inputs else before
  }

  datatype Entry = Entry(commitment: Commitment, amount: nat)

  ghost predicate HasKey(entries: seq<Entry>, c: Commitment)
  {
    exists k :: 0 <= k < |entries| && entries[k].commitment == c
  }

  ghost predicate Mentions(inputs: seq<Input>, c: Commitment)
  {
    exists k :: 0 <= k < |inputs| && inputs[k].commitment == c
  }

  /** The first amount recorded for a commitment counts; an unreadable one counts as zero. */
  function Add(entries: seq<Entry>, i: Input): seq<Entry>
  {
    if i.commitment == "" || exists k :: 0 <= k < |entries| && entries[k].commitment == i.commitment then entries
    else entries + [Entry(i.commitment, if i.amount.Some? then i.amount.value else 0)]
  }

  function AddAll(entries: seq<Entry>, inputs: seq<Input>): seq<Entry>
  {
    if inputs == [] then entries
    else Add(AddAll(entries, inputs[..|inputs| - 1]), inputs[|inputs| - 1])
  }

  /** Commitments in flight with the amounts they hold, in insertion order. */
  method PendingSpendMap(store: Store) returns (entries: seq<Entry>)
    ensures entries == AddAll([], LockedInputs(store))
  {
    entries := [];
    for i := 0 to |store|
      invariant entries == AddAll([], LockedInputs(store[..i]))
    {
      assert store[..i + 1][..i] == store[..i];
      if InFlight(store[i]) {
        entries := AddInputs(entries, LockedInputs(store[..i]), store[i].inputs);
      }
    }
    assert store[..|store|] == store;
  }

  method AddInputs(entries: seq<Entry>, ghost before: seq<Input>, inputs: seq<Input>) returns (longer: seq<Entry>)
    requires entries == AddAll([], before)
    ensures longer == AddAll([], before + inputs)
  {
    longer := entries;
    assert before + inputs[..0] == before;
    for k := 0 to |inputs|
      invariant longer == AddAll([], before + inputs[..k])
    {
      assert (before + inputs[..k + 1])[..|before| + k] == before + inputs[..k];
      longer := Add(longer, inputs[k]);
    }
    assert inputs[..|inputs|] == inputs;
  }

  function AmountsOf(entries: seq<Entry>): nat
  {
    if entries == [] then 0 else AmountsOf(entries[..|entries| - 1]) + entries[|entries| - 1].amount
  }

  method PendingSpendSum(entries: seq<Entry>) returns (total: nat)
    ensures total == AmountsOf(entries)
  {
    total := 0;
    for i := 0 to |entries|
      invariant total == AmountsOf(entries[..i])
    {
      assert entries[..i + 1][..i] == entries[..i];
      total := total + entries[i].amount;
    }
    assert entries[..|entries|] == entries;
  }

  datatype Amount = Total(total: nat) | NoInputs | AmountInvalid

  predicate Readable(inputs: seq<Input>)
  {
    forall k :: 0 <= k < |inputs| ==> inputs[k].amount.Some?
  }

  function TotalOf(inputs: seq<Input>): nat
    requires Readable(inputs)
  {
    if inputs == [] then 0 else TotalOf(inputs[..|inputs| - 1]) + inputs[|inputs| - 1].amount.value
  }

  method ReceiptAmount(r: Receipt) returns (a: Amount)
    ensures a.NoInputs? <==> r.inputs == []
    ensures a.AmountInvalid? <==> !Readable(r.inputs)
    ensures a.Total? ==> Readable(r.inputs) && a.total == TotalOf(r.inputs)
  {
    if r.inputs == [] { return NoInputs; }
    var total := 0;
    for k := 0 to |r.inputs|
      invariant Readable(r.inputs[..k]) && total == TotalOf(r.inputs[..k])
    {
      if r.inputs[k].amount.None? { return AmountInvalid; }
      assert r.inputs[..k + 1][..k] == r.inputs[..k];
      total := total + r.inputs[k].amount.value;
    }
    assert r.inputs[..|r.inputs|] == r.inputs;
    return Total(total);
  }

  /** No note is an input of two transfers in flight. */
  ghost predicate Disjoint(store: Store)
  {
    forall i, j, c | 0 <= i < j < |store| && InFlight(store[i]) && InFlight(store[j]) && Mentions(store[i].inputs, c) ::
      !Mentions(store[j].inputs, c)
  }

  lemma {:induction false} LockedIff(store: Store, c: Commitment)
    ensures Mentions(LockedInputs(store), c) <==>
            exists i :: 0 <= i < |store| && InFlight(store[i]) && Mentions(store[i].inputs, c)
  {
    if store != [] {
      var before, last := store[..|store| - 1], store[|store| - 1];
      LockedIff(before, c);
      if InFlight(last) {
        MentionsConcat(LockedInputs(before), last.inputs, c);
      }
      assert forall i :: 0 <= i < |before| ==> before[i] == store[i];
    }
  }

  lemma MentionsConcat(a: seq<Input>, b: seq<Input>, c: Commitment)
    ensures Mentions(a + b, c) <==> Mentions(a, c) || Mentions(b, c)
  {
    if Mentions(a, c) {
      var k :| 0 <= k < |a| && a[k].commitment == c;
      assert (a + b)[k].commitment == c;
    }
    if Mentions(b, c) {
      var k :| 0 <= k < |b| && b[k].commitment == c;
      assert (a + b)[|a| + k].commitment == c;
    }
  }

  lemma {:induction false} AddAllKeys(inputs: seq<Input>, c: Commitment)
    requires c != ""
    ensures HasKey(AddAll([], inputs), c) <==> Mentions(inputs, c)
  {
    if inputs != [] {
      var before, last := inputs[..|inputs| - 1], inputs[|inputs| - 1];
      AddAllKeys(before, c);
      assert inputs == before + [last];
      MentionsConcat(before, [last], c);
      var entries, longer := AddAll([], before), AddAll([], inputs);
      assert Mentions([last], c) <==> last.commitment == c by {
        assert [last][0].commitment == last.commitment;
      }
      if HasKey(entries, c) {
        var k :| 0 <= k < |entries| && entries[k].commitment == c;
        assert longer[k].commitment == c;
      } else if last.commitment == c {
        assert longer[|entries|].commitment == c;
      }
    }
  }

  /** The lock table holds exactly the notes of the transfers that are not included yet. */
  lemma LockTableExact(store: Store, c: Commitment)
    requires c != ""
    ensures HasKey(AddAll([], LockedInputs(store)), c) <==>
            exists i :: 0 <= i < |store| && store[i].kind == "transfer" && store[i].status in {Signed, Seen}
                        && Mentions(store[i].inputs, c)
  {
    AddAllKeys(LockedInputs(store), c);
    LockedIff(store, c);
  }

  /** Each note is in the table once, with the amount it was first recorded with, or zero when that was no number. */
  lemma {:induction false} LockTableAmounts(inputs: seq<Input>, k: nat)
    requires k < |AddAll([], inputs)|
    ensures var entries := AddAll([], inputs);
            && (forall m :: 0 <= m < k ==> entries[m].commitment != entries[k].commitment)
            && exists i :: 0 <= i < |inputs| && inputs[i].commitment == entries[k].commitment
                           && entries[k].amount == (if inputs[i].amount.Some? then inputs[i].amount.value else 0)
                           && forall j :: 0 <= j < i ==> inputs[j].commitment != entries[k].commitment
  {
    var before, last := inputs[..|inputs| - 1], inputs[|inputs| - 1];
    var entries := AddAll([], before);
    if k < |entries| {
      LockTableAmounts(before, k);
      var i :| 0 <= i < |before| && before[i].commitment == entries[k].commitment
               && entries[k].amount == (if before[i].amount.Some? then before[i].amount.value else 0)
               && forall j :: 0 <= j < i ==> before[j].commitment != entries[k].commitment;
      assert inputs[i] == before[i] && forall j :: 0 <= j < i ==> inputs[j] == before[j];
    } else {
      AddAllKeys(before, last.commitment);
      assert !HasKey(entries, last.commitment);
      assert !Mentions(before, last.commitment);
      assert forall j :: 0 <= j < |before| ==> inputs[j] == before[j];
    }
  }

  // ----- the confirm path

  function Recorded(inputs: seq<Commitment>, amounts: map<Commitment, nat>): seq<Input>
  {
    seq(|inputs|, k requires 0 <= k < |inputs| =>
      Input(inputs[k], if inputs[k] in amounts then Some(amounts[inputs[k]]) else None))
  }

  /** The requested notes that some transfer in flight already uses. */
  ghost predicate Conflicts(store: Store, inputs: seq<Commitment>)
  {
    exists k :: 0 <= k < |inputs| && inputs[k] != "" && Mentions(LockedInputs(store), inputs[k])
  }

  function FirstTaken(pending: seq<Entry>, inputs: seq<Commitment>): (k: nat)
    ensures k <= |inputs|
  {
    if inputs == [] || exists m :: 0 <= m < |pending| && pending[m].commitment == inputs[0] then 0
    else 1 + FirstTaken(pending, inputs[1..])
  }

  lemma {:induction false} FirstTakenFacts(pending: seq<Entry>, inputs: seq<Commitment>)
    ensures FirstTaken(pending, inputs) < |inputs| <==> exists k :: 0 <= k < |inputs| && HasKey(pending, inputs[k])
  {
    if inputs != [] {
      FirstTakenFacts(pending, inputs[1..]);
      assert forall k :: 0 < k < |inputs| ==> inputs[k] == inputs[1..][k - 1];
      assert HasKey(pending, inputs[0]) <==> exists m :: 0 <= m < |pending| && pending[m].commitment == inputs[0];
      if k :| 0 < k < |inputs| && HasKey(pending, inputs[k]) {
        assert HasKey(pending, inputs[1..][k - 1]);
      }
    }
  }

  lemma {:induction false} NoEmptyKey(inputs: seq<Input>)
    ensures !HasKey(AddAll([], inputs), "")
  {
    if inputs != [] {
      NoEmptyKey(inputs[..|inputs| - 1]);
    }
  }

  /** What the worker looks up in the table is what `Conflicts` says about the receipts. */
  lemma TakenIsConflict(store: Store, inputs: seq<Commitment>)
    ensures FirstTaken(AddAll([], LockedInputs(store)), inputs) < |inputs| <==> Conflicts(store, inputs)
  {
    var pending := AddAll([], LockedInputs(store));
    FirstTakenFacts(pending, inputs);
    NoEmptyKey(LockedInputs(store));
    forall k | 0 <= k < |inputs|
      ensures HasKey(pending, inputs[k]) <==> inputs[k] != "" && Mentions(LockedInputs(store), inputs[k])
    {
      if inputs[k] != "" {
        AddAllKeys(LockedInputs(store), inputs[k]);
      }
    }
  }

  datatype Verdict = Passed | NoteNotSpendable(input: Commitment) | GateRefused

  /**
   The stored receipts. Every message is handled on its own: a handler looks at the store, waits for the
   wallet, loads the store again and writes back what it made of that copy.
   */
  class Worker {
    var receipts: Store

    constructor ()
      ensures receipts == []
    {
      receipts := [];
    }

    /** `gate` stands for the later checks up to the signature; the lock is looked at before them. */
    method CheckTransfer(inputs: seq<Commitment>, gate: bool) returns (v: Verdict)
      ensures v.NoteNotSpendable? <==> Conflicts(receipts, inputs)
      ensures v.NoteNotSpendable? ==> v.input in inputs && Mentions(LockedInputs(receipts), v.input)
      ensures v.Passed? <==> !Conflicts(receipts, inputs) && gate
    {
      var pending := PendingSpendMap(receipts);
      var hit := FirstTaken(pending, inputs);
      TakenIsConflict(receipts, inputs);
      if hit < |inputs| {
        FirstTakenIsLocked(receipts, inputs);
        return NoteNotSpendable(inputs[hit]);
      }
      return if gate then Passed else GateRefused;
    }

    method Load() returns (snapshot: Store)
      ensures snapshot == receipts
    {
      snapshot := receipts;
    }

    /** Nothing is written when the change is refused on the copy. */
    method Save(snapshot: Store, write: Write) returns (c: Change)
      modifies this
      ensures c == Apply(write, snapshot)
      ensures receipts == StoreAfter(c, old(receipts))
    {
      c := Apply(write, snapshot);
      if c.Changed? {
        receipts := c.store;
      }
    }
  }

  lemma FirstTakenIsLocked(store: Store, inputs: seq<Commitment>)
    requires FirstTaken(AddAll([], LockedInputs(store)), inputs) < |inputs|
    ensures Mentions(LockedInputs(store), inputs[FirstTaken(AddAll([], LockedInputs(store)), inputs)])
  {
    var pending := AddAll([], LockedInputs(store));
    FirstTakenIsKey(pending, inputs);
    NoEmptyKey(LockedInputs(store));
    AddAllKeys(LockedInputs(store), inputs[FirstTaken(pending, inputs)]);
  }

  lemma {:induction false} FirstTakenIsKey(pending: seq<Entry>, inputs: seq<Commitment>)
    requires FirstTaken(pending, inputs) < |inputs|
    ensures HasKey(pending, inputs[FirstTaken(pending, inputs)])
  {
    if !exists m :: 0 <= m < |pending| && pending[m].commitment == inputs[0] {
      FirstTakenIsKey(pending, inputs[1..]);
    }
  }

  // ----- what a write keeps

  ghost predicate Kept(store: Store)
  {
    OnePerDigest(store) && |store| <= MAX_RECEIPTS && Disjoint(store)
  }

  /** Disjointness is about pairs of different receipts, so it survives the loss of any of them. */
  ghost predicate DisjointPair(a: Receipt, b: Receipt)
  {
    InFlight(a) && InFlight(b) ==> forall c :: Mentions(a.inputs, c) ==> !Mentions(b.inputs, c)
  }

  lemma DisjointByPairs(store: Store)
    requires OnePerDigest(store)
    ensures Disjoint(store) <==> forall a, b | a in store && b in store && a != b :: DisjointPair(a, b)
  {
    if Disjoint(store) {
      forall a, b | a in store && b in store && a != b ensures DisjointPair(a, b) {
        var i :| 0 <= i < |store| && store[i] == a;
        var j :| 0 <= j < |store| && store[j] == b;
        assert i < j || j < i;
      }
    }
    if forall a, b | a in store && b in store && a != b :: DisjointPair(a, b) {
      forall i, j, c | 0 <= i < j < |store| && InFlight(store[i]) && InFlight(store[j]) && Mentions(store[i].inputs, c)
        ensures !Mentions(store[j].inputs, c)
      {
        assert store[i].digest != store[j].digest;
        assert DisjointPair(store[i], store[j]);
      }
    }
  }

  lemma OpenKeeps(store: Store, digest: Digest, kind: string, inputs: seq<Input>, now: nat)
    requires Kept(store) && OpenReceipt(store, digest, kind, inputs, now).Changed?
    requires forall c :: kind == "transfer" && Mentions(Normalized(inputs), c) ==> !Mentions(LockedInputs(store), c)
    ensures Kept(OpenReceipt(store, digest, kind, inputs, now).store)
  {
    var newest := Receipt(digest, kind, Normalized(inputs), Signed, now);
    var longer := store + [newest];
    forall i, j, c | 0 <= i < j < |longer| && InFlight(longer[i]) && InFlight(longer[j]) &&
        Mentions(longer[i].inputs, c)
      ensures !Mentions(longer[j].inputs, c)
    {
      if j == |store| {
        LockedIff(store, c);
      }
    }
    CapDropsOldest(longer);
    DisjointByPairs(longer);
    DisjointByPairs(Capped(longer));
  }

  lemma {:induction false} NormalizedMentions(inputs: seq<Input>, c: Commitment)
    ensures Mentions(Normalized(inputs), c) <==> c != "" && Mentions(inputs, c)
  {
    var kept := Normalized(inputs);
    if Mentions(kept, c) {
      var k :| 0 <= k < |kept| && kept[k].commitment == c;
      assert kept[k] in kept;
      var m :| 0 <= m < |inputs| && inputs[m] == kept[k];
    }
    if c != "" && Mentions(inputs, c) {
      var k :| 0 <= k < |inputs| && inputs[k].commitment == c;
      assert inputs[k] in inputs;
      var m :| 0 <= m < |kept| && kept[m] == inputs[k];
    }
  }

  lemma StatusKeeps(store: Store, digest: Digest, status: Status)
    requires Kept(store) && WithStatus(store, digest, status).Changed?
    ensures Kept(WithStatus(store, digest, status).store)
  {
    var after := WithStatus(store, digest, status).store;
    forall i | 0 <= i < |store| ensures InFlight(after[i]) ==> InFlight(store[i]) {
    }
  }

  /** The notes that a write would lock. */
  ghost function Claimed(w: Write): seq<Input>
  {
    if w.Open? && w.kind == "transfer" then Normalized(w.inputs) else []
  }

  ghost predicate NotLocked(store: Store, inputs: seq<Input>)
  {
    forall c :: Mentions(inputs, c) ==> !Mentions(LockedInputs(store), c)
  }

  lemma ApplyKeeps(store: Store, w: Write)
    requires Kept(store) && NotLocked(store, Claimed(w))
    ensures Kept(StoreAfter(Apply(w, store), store))
  {
    if Apply(w, store).Changed? {
      match w
      case Open(digest, kind, inputs, now) => OpenKeeps(store, digest, kind, inputs, now);
      case See(digest, wellFormed) => StatusKeeps(store, digest, Seen);
      case Include(digest) => StatusKeeps(store, digest, Included);
    }
  }

  /** A write locks nothing beyond its own notes. */
  lemma LocksOnlyClaimed(store: Store, w: Write, c: Commitment)
    requires Kept(store) && Mentions(LockedInputs(StoreAfter(Apply(w, store), store)), c)
    ensures Mentions(LockedInputs(store), c) || Mentions(Claimed(w), c)
  {
    var after := StoreAfter(Apply(w, store), store);
    LockedIff(after, c);
    LockedIff(store, c);
    var k :| 0 <= k < |after| && InFlight(after[k]) && Mentions(after[k].inputs, c);
    if Apply(w, store).Changed? && w.Open? {
      var newest := Receipt(w.digest, w.kind, Normalized(w.inputs), Signed, w.now);
      assert OnePerDigest(store + [newest]);
      CapDropsOldest(store + [newest]);
      assert after[k] in after;
      assert after[k] == newest || after[k] in store;
    }
  }

  /** A receipt that stays only moves forward, keeps its inputs, and nothing but the cap removes one. */
  lemma StatusMovesForward(store: Store, w: Write, a: Receipt, b: Receipt)
    requires Kept(store) && a in store && b in StoreAfter(Apply(w, store), store) && a.digest == b.digest
    ensures StatusRank(a.status) <= StatusRank(b.status)
    ensures a.inputs == b.inputs && a.kind == b.kind && a.openedAt == b.openedAt
  {
    match w
    case Open(digest, kind, inputs, now) => OpenedForward(store, digest, kind, inputs, now, a, b);
    case See(digest, wellFormed) => StatusForward(store, digest, Seen, a, b);
    case Include(digest) => StatusForward(store, digest, Included, a, b);
  }

  // ----- what each write does to its receipt and to the lock

  ghost predicate KnownWith(store: Store, digest: Digest, statuses: set<Status>)
  {
    exists i :: 0 <= i < |store| && store[i].digest == digest && store[i].status in statuses
  }

  /** The receipt of the digest has the status, and nothing else is different. */
  ghost predicate OnlyStatus(store: Store, digest: Digest, status: Status, after: Store)
  {
    |after| == |store| && forall i :: 0 <= i < |store| ==>
      after[i] == if store[i].digest == digest then store[i].(status := status) else store[i]
  }

  lemma WithStatusFacts(store: Store, digest: Digest, status: Status)
    requires OnePerDigest(store)
    ensures var c := WithStatus(store, digest, status);
            && (c.Changed? <==> KnownWith(store, digest, {Signed, Seen}))
            && (c.UnknownReceipt? <==> !KnownWith(store, digest, {Signed, Seen, Included}))
            && (c.InvalidTransition? <==> KnownWith(store, digest, {Included}))
            && (c.Changed? ==> OnlyStatus(store, digest, status, c.store))
  {
    var p := Position(store, digest);
    forall i | 0 <= i < |store| && store[i].digest == digest ensures i == p {
      AtPosition(store, i);
    }
  }

  /**
   A receipt reported as seen becomes seen and keeps its notes locked. The report is refused for an unknown
   receipt, for one already included, and when its shape is wrong.
   */
  lemma SeenKeepsLocks(store: Store, digest: Digest, wellFormed: bool)
    requires OnePerDigest(store)
    ensures var c := ApplySeenReceipt(store, digest, wellFormed);
            && (c.UnknownReceipt? <==> !KnownWith(store, digest, {Signed, Seen, Included}))
            && (c.InvalidTransition? <==> KnownWith(store, digest, {Included}))
            && (c.InvalidArgument? <==> KnownWith(store, digest, {Signed, Seen}) && !wellFormed)
            && (c.Changed? <==> KnownWith(store, digest, {Signed, Seen}) && wellFormed)
            && (c.Changed? ==> OnlyStatus(store, digest, Seen, c.store))
            && (c.Changed? ==>
                  forall n :: Mentions(LockedInputs(c.store), n) <==> Mentions(LockedInputs(store), n))
  {
    WithStatusFacts(store, digest, Seen);
    var c := ApplySeenReceipt(store, digest, wellFormed);
    if c.Changed? {
      forall n ensures Mentions(LockedInputs(c.store), n) <==> Mentions(LockedInputs(store), n) {
        LockedIff(c.store, n);
        LockedIff(store, n);
        assert forall i :: 0 <= i < |store| ==>
          InFlight(c.store[i]) == InFlight(store[i]) && c.store[i].inputs == store[i].inputs;
      }
    }
  }

  /** A receipt entered as included becomes included and frees exactly its own notes. */
  lemma IncludedFreesItsNotes(store: Store, digest: Digest)
    requires OnePerDigest(store) && Disjoint(store)
    ensures var c := MarkIncluded(store, digest);
            && (c.UnknownReceipt? <==> !KnownWith(store, digest, {Signed, Seen, Included}))
            && (c.InvalidTransition? <==> KnownWith(store, digest, {Included}))
            && (c.Changed? <==> KnownWith(store, digest, {Signed, Seen}))
            && (c.Changed? ==> OnlyStatus(store, digest, Included, c.store))
            && (c.Changed? ==>
                  forall n :: Mentions(LockedInputs(c.store), n) <==>
                              Mentions(LockedInputs(store), n) && !HeldBy(store, digest, n))
  {
    WithStatusFacts(store, digest, Included);
    var c := MarkIncluded(store, digest);
    if c.Changed? {
      forall n
        ensures Mentions(LockedInputs(c.store), n) <==> Mentions(LockedInputs(store), n) && !HeldBy(store, digest, n)
      {
        FreedNote(store, digest, c.store, n);
      }
    }
  }

  /** The note is an input of the transfer with this digest. */
  ghost predicate HeldBy(store: Store, digest: Digest, n: Commitment)
  {
    exists i :: 0 <= i < |store| && store[i].digest == digest && store[i].kind == "transfer" &&
        Mentions(store[i].inputs, n)
  }

  lemma FreedNote(store: Store, digest: Digest, after: Store, n: Commitment)
    requires OnePerDigest(store) && Disjoint(store)
    requires KnownWith(store, digest, {Signed, Seen}) && OnlyStatus(store, digest, Included, after)
    ensures Mentions(LockedInputs(after), n) <==> Mentions(LockedInputs(store), n) && !HeldBy(store, digest, n)
  {
    LockedIff(store, n);
    LockedIff(after, n);
    var k :| 0 <= k < |store| && store[k].digest == digest && store[k].status in {Signed, Seen};
    forall i | 0 <= i < |store| && store[i].digest == digest ensures i == k {
      AtPosition(store, i);
      AtPosition(store, k);
    }
    if Mentions(LockedInputs(store), n) && !HeldBy(store, digest, n) {
      var i :| 0 <= i < |store| && InFlight(store[i]) && Mentions(store[i].inputs, n);
      assert i != k && after[i] == store[i];
    }
    if Mentions(LockedInputs(after), n) {
      var i :| 0 <= i < |after| && InFlight(after[i]) && Mentions(after[i].inputs, n);
      assert i != k && store[i] == after[i];
      if HeldBy(store, digest, n) {
        OneHolder(store, i, k, n);
      }
    }
  }

  lemma OneHolder(store: Store, i: nat, j: nat, n: Commitment)
    requires Disjoint(store) && i < |store| && j < |store| && InFlight(store[i]) && InFlight(store[j])
    requires Mentions(store[i].inputs, n) && Mentions(store[j].inputs, n)
    ensures i == j
  {
  }

  /**
   A new receipt starts as signed, at the given time, with the inputs that name a note. It is refused exactly
   for a digest that is not sixty-four hex digits, or is known; with room in the store nothing else changes,
   and a transfer locks exactly its notes in addition.
   */
  lemma OpenedReceipt(store: Store, digest: Digest, kind: string, inputs: seq<Input>, now: nat)
    requires OnePerDigest(store)
    ensures var c := OpenReceipt(store, digest, kind, inputs, now);
            && (c.InvalidArgument? <==>
                  !(|digest| == 64 && forall ch :: ch in digest ==> ch in "0123456789abcdefABCDEF"))
            && (c.DuplicateReceipt? <==> !c.InvalidArgument? && KnownWith(store, digest, {Signed, Seen, Included}))
            && (c.Changed? <==> !c.InvalidArgument? && !c.DuplicateReceipt?)
            && (c.Changed? && |store| < 20 ==>
                  && |c.store| == |store| + 1 && c.store[..|store|] == store
                  && Opens(c.store[|store|], digest, kind, inputs, now)
                  && forall n :: Mentions(LockedInputs(c.store), n) <==>
                       Mentions(LockedInputs(store), n) || (kind == "transfer" && n != "" && Mentions(inputs, n)))
  {
    DigestText(digest);
    PositionKnown(store, digest);
    var c := OpenReceipt(store, digest, kind, inputs, now);
    if c.Changed? && |store| < 20 {
      NewReceipt(digest, kind, inputs, now);
      OpenedLocks(store, Receipt(digest, kind, Normalized(inputs), Signed, now), inputs);
    }
  }

  lemma PositionKnown(store: Store, digest: Digest)
    ensures Position(store, digest) < |store| <==> KnownWith(store, digest, {Signed, Seen, Included})
  {
    var p := Position(store, digest);
    if p < |store| {
      assert store[p].status == Signed || store[p].status == Seen || store[p].status == Included;
    }
  }

  lemma NewReceipt(digest: Digest, kind: string, inputs: seq<Input>, now: nat)
    ensures Opens(Receipt(digest, kind, Normalized(inputs), Signed, now), digest, kind, inputs, now)
  {
    FilterIsSubsequence((i: Input) => i.commitment != "", inputs);
  }

  lemma OpenedLocks(store: Store, r: Receipt, inputs: seq<Input>)
    requires r.inputs == Normalized(inputs) && r.status == Signed
    ensures forall n :: Mentions(LockedInputs(store + [r]), n) <==>
                        Mentions(LockedInputs(store), n) || (r.kind == "transfer" && n != "" && Mentions(inputs, n))
  {
    assert (store + [r])[..|store|] == store;
    forall n
      ensures Mentions(LockedInputs(store + [r]), n) <==>
              Mentions(LockedInputs(store), n) || (r.kind == "transfer" && n != "" && Mentions(inputs, n))
    {
      NormalizedMentions(inputs, n);
      MentionsConcat(LockedInputs(store), r.inputs, n);
    }
  }

  ghost predicate Opens(r: Receipt, digest: Digest, kind: string, inputs: seq<Input>, now: nat)
  {
    && r.digest == digest && r.kind == kind && r.status == Signed && r.openedAt == now
    && Subsequence(r.inputs, inputs) && forall i :: i in r.inputs <==> i in inputs && i.commitment != ""
  }

  lemma DigestText(digest: Digest)
    ensures ValidDigest(digest) <==> |digest| == 64 && forall c :: c in digest ==> c in "0123456789abcdefABCDEF"
  {
    forall c ensures IsHex(c) <==> c in "0123456789abcdefABCDEF" {
      HexTable(c);
    }
    assert forall i :: 0 <= i < |digest| ==> digest[i] in digest;
  }

  lemma AtPosition(store: Store, i: nat)
    requires OnePerDigest(store) && i < |store|
    ensures Position(store, store[i].digest) == i
  {
  }

  lemma SameDigestSame(store: Store, a: Receipt, b: Receipt)
    requires OnePerDigest(store) && a in store && b in store && a.digest == b.digest
    ensures a == b
  {
    var i :| 0 <= i < |store| && store[i] == a;
    var j :| 0 <= j < |store| && store[j] == b;
    AtPosition(store, i);
    AtPosition(store, j);
  }

  lemma OpenedForward(store: Store, digest: Digest, kind: string, inputs: seq<Input>, now: nat, a: Receipt, b: Receipt)
    requires Kept(store) && a in store && a.digest == b.digest
    requires b in store || b in StoreAfter(OpenReceipt(store, digest, kind, inputs, now), store)
    ensures a == b
  {
    if OpenReceipt(store, digest, kind, inputs, now).Changed? {
      var longer := store + [Receipt(digest, kind, Normalized(inputs), Signed, now)];
      assert OnePerDigest(longer);
      CapDropsOldest(longer);
      SameDigestSame(longer, a, b);
    } else {
      SameDigestSame(store, a, b);
    }
  }

  lemma StatusForward(store: Store, digest: Digest, status: Status, a: Receipt, b: Receipt)
    requires Kept(store) && a in store && a.digest == b.digest && status != Signed
    requires b in store || b in StoreAfter(WithStatus(store, digest, status), store)
    ensures StatusRank(a.status) <= StatusRank(b.status)
    ensures a.inputs == b.inputs && a.kind == b.kind && a.openedAt == b.openedAt
  {
    if b in store {
      SameDigestSame(store, a, b);
    } else {
      var i := Position(store, digest);
      assert b == store[i].(status := status);
      SameDigestSame(store, a, store[i]);
    }
  }

  // ----- the locked sum

  ghost predicate NoRepeats(inputs: seq<Input>)
  {
    forall i, j | 0 <= i < j < |inputs| :: inputs[i].commitment != inputs[j].commitment
  }

  ghost predicate Named(inputs: seq<Input>)
  {
    forall i | 0 <= i < |inputs| :: inputs[i].commitment != ""
  }

  ghost predicate CleanReceipts(store: Store)
  {
    forall i | 0 <= i < |store| && InFlight(store[i]) ::
      Readable(store[i].inputs) && NoRepeats(store[i].inputs) && Named(store[i].inputs)
  }

  /** The total of the receipts in flight, each taken by itself. */
  ghost function ReceiptTotals(store: Store): nat
    requires CleanReceipts(store)
  {
    if store == [] then 0
    else
      var last := store[|store| - 1];
      ReceiptTotals(store[..|store| - 1]) + if InFlight(last) then TotalOf(last.inputs) else 0
  }

  lemma {:induction false} TotalOfConcat(a: seq<Input>, b: seq<Input>)
    requires Readable(a) && Readable(b)
    ensures Readable(a + b) && TotalOf(a + b) == TotalOf(a) + TotalOf(b)
  {
    if b == [] {
      assert a + b == a;
    } else {
      TotalOfConcat(a, b[..|b| - 1]);
      assert (a + b)[..|a + b| - 1] == a + b[..|b| - 1];
    }
  }

  lemma {:induction false} LockedIsClean(store: Store)
    requires CleanReceipts(store) && Disjoint(store)
    ensures var locked := LockedInputs(store);
            Readable(locked) && NoRepeats(locked) && Named(locked) && TotalOf(locked) == ReceiptTotals(store)
  {
    if store != [] {
      var before, last := store[..|store| - 1], store[|store| - 1];
      assert forall i :: 0 <= i < |before| ==> before[i] == store[i];
      LockedIsClean(before);
      if InFlight(last) {
        var locked := LockedInputs(before);
        forall c | Mentions(locked, c) ensures !Mentions(last.inputs, c) {
          LockedIff(before, c);
        }
        CleanConcat(locked, last.inputs);
      }
    }
  }

  lemma CleanConcat(a: seq<Input>, b: seq<Input>)
    requires Readable(a) && NoRepeats(a) && Named(a)
    requires Readable(b) && NoRepeats(b) && Named(b)
    requires forall c :: Mentions(a, c) ==> !Mentions(b, c)
    ensures Readable(a + b) && NoRepeats(a + b) && Named(a + b)
    ensures TotalOf(a + b) == TotalOf(a) + TotalOf(b)
  {
    TotalOfConcat(a, b);
    forall i, j | 0 <= i < |a| && 0 <= j < |b| ensures a[i].commitment != b[j].commitment {
      assert Mentions(a, a[i].commitment) && Mentions(b, b[j].commitment);
    }
  }

  lemma AddFresh(entries: seq<Entry>, i: Input)
    requires !HasKey(entries, i.commitment) && i.commitment != "" && i.amount.Some?
    ensures AmountsOf(Add(entries, i)) == AmountsOf(entries) + i.amount.value
  {
    assert Add(entries, i) == entries + [Entry(i.commitment, i.amount.value)];
    assert Add(entries, i)[..|entries|] == entries;
  }

  lemma {:induction false} DistinctInputsAdd(inputs: seq<Input>)
    requires Readable(inputs) && NoRepeats(inputs) && Named(inputs)
    ensures AmountsOf(AddAll([], inputs)) == TotalOf(inputs)
  {
    if inputs != [] {
      var before, last := inputs[..|inputs| - 1], inputs[|inputs| - 1];
      DistinctInputsAdd(before);
      AddAllKeys(before, last.commitment);
      assert !Mentions(before, last.commitment);
      AddFresh(AddAll([], before), last);
    }
  }

  /** The locked sum is the sum of what the receipts in flight spend, each note counted once. */
  lemma LockedSumIsReceiptSum(store: Store)
    requires Kept(store) && CleanReceipts(store)
    ensures AmountsOf(AddAll([], LockedInputs(store))) == ReceiptTotals(store)
  {
    LockedIsClean(store);
    DistinctInputsAdd(LockedInputs(store));
  }

  // ----- what the lock does not cover

  /**
   At the cap a new receipt pushes out the oldest one together with its lock: the notes of all transfers
   in flight stay locked exactly when there is room or the oldest receipt locks nothing.
   */
  lemma LocksSurviveOpeningIff(store: Store, digest: Digest, inputs: seq<Input>, now: nat)
    requires Kept(store) && OpenReceipt(store, digest, "transfer", inputs, now).Changed?
    requires forall r :: r in store ==> r.openedAt <= now
    requires forall c :: Mentions(Normalized(inputs), c) ==> !Mentions(LockedInputs(store), c)
    ensures var after := OpenReceipt(store, digest, "transfer", inputs, now).store;
            LocksKept(store, after) <==>
            (|store| < MAX_RECEIPTS || !InFlight(store[Oldest(store)]) || store[Oldest(store)].inputs == [])
  {
    var newest := Receipt(digest, "transfer", Normalized(inputs), Signed, now);
    var after := OpenReceipt(store, digest, "transfer", inputs, now).store;
    assert OnePerDigest(store + [newest]);
    if |store| < MAX_RECEIPTS {
      assert after == store + [newest];
      LocksGrow(store, newest);
    } else {
      FullStoreDropsOldest(store, newest);
      LocksAfterDrop(store, newest, after, store[Oldest(store)]);
    }
  }

  ghost predicate LocksKept(store: Store, after: Store)
  {
    forall c :: Mentions(LockedInputs(store), c) ==> Mentions(LockedInputs(after), c)
  }

  lemma LocksGrow(store: Store, newest: Receipt)
    ensures LocksKept(store, store + [newest])
  {
    assert (store + [newest])[..|store|] == store;
    forall c | Mentions(LockedInputs(store), c) ensures Mentions(LockedInputs(store + [newest]), c) {
      MentionsConcat(LockedInputs(store), newest.inputs, c);
    }
  }

  lemma LocksAfterDrop(store: Store, newest: Receipt, after: Store, out: Receipt)
    requires Kept(store) && out in store
    requires forall r :: r in after <==> (r in store || r == newest) && r != out
    requires forall c :: Mentions(newest.inputs, c) ==> !Mentions(LockedInputs(store), c)
    ensures LocksKept(store, after) <==> !InFlight(out) || out.inputs == []
  {
    forall c | Mentions(LockedInputs(store), c)
      ensures Mentions(LockedInputs(after), c) <==> !(InFlight(out) && Mentions(out.inputs, c))
    {
      LockAfterDrop(store, newest, after, out, c);
    }
    if InFlight(out) && out.inputs != [] {
      var c := out.inputs[0].commitment;
      assert Mentions(out.inputs, c);
      var i :| 0 <= i < |store| && store[i] == out;
      LockedIff(store, c);
    }
  }

  lemma FullStoreDropsOldest(store: Store, newest: Receipt)
    requires |store| == MAX_RECEIPTS && OnePerDigest(store + [newest])
    requires forall r :: r in store ==> r.openedAt <= newest.openedAt
    ensures forall r :: r in Capped(store + [newest]) <==> (r in store || r == newest) && r != store[Oldest(store)]
  {
    OldestOfLonger(store, newest);
    CappedOnce(store + [newest]);
    RemoveAtFacts(store + [newest], Oldest(store));
    assert (store + [newest])[Oldest(store)] == store[Oldest(store)];
  }

  lemma CappedOnce(store: Store)
    requires |store| == MAX_RECEIPTS + 1
    ensures Capped(store) == RemoveAt(store, Oldest(store))
  {
    assert |RemoveAt(store, Oldest(store))| == MAX_RECEIPTS;
  }

  lemma OldestOfLonger(store: Store, newest: Receipt)
    requires store != [] && forall r :: r in store ==> r.openedAt <= newest.openedAt
    ensures Oldest(store + [newest]) == Oldest(store)
  {
    var longer, i, j := store + [newest], Oldest(store), Oldest(store + [newest]);
    assert longer[i] == store[i] && store[i] in store;
    assert j < |store| ==> longer[j] == store[j];
  }

  lemma LockAfterDrop(store: Store, newest: Receipt, after: Store, out: Receipt, c: Commitment)
    requires Kept(store) && out in store && Mentions(LockedInputs(store), c)
    requires forall r :: r in after <==> (r in store || r == newest) && r != out
    requires !Mentions(newest.inputs, c)
    ensures Mentions(LockedInputs(after), c) <==> !(InFlight(out) && Mentions(out.inputs, c))
  {
    LockedIff(store, c);
    LockedIff(after, c);
    DisjointByPairs(store);
    var i :| 0 <= i < |store| && InFlight(store[i]) && Mentions(store[i].inputs, c);
    var holder := store[i];
    assert holder in store;
    if InFlight(out) && Mentions(out.inputs, c) {
      assert holder == out by {
        assert holder != out ==> DisjointPair(holder, out);
      }
      forall k | 0 <= k < |after| ensures !(InFlight(after[k]) && Mentions(after[k].inputs, c)) {
        assert after[k] in after;
        assert after[k] in store ==> DisjointPair(after[k], out);
      }
    } else {
      assert holder in after;
      var k :| 0 <= k < |after| && after[k] == holder;
    }
  }

  ghost predicate LowerInputs(inputs: seq<Input>)
  {
    forall k | 0 <= k < |inputs| :: Lower(inputs[k].commitment) == inputs[k].commitment
  }

  /** A requested note that is in flight, whatever its spelling. */
  ghost predicate SameNoteInFlight(store: Store, inputs: seq<Commitment>)
  {
    exists k, c | 0 <= k < |inputs| && inputs[k] != "" && Mentions(LockedInputs(store), c) ::
        Lower(c) == Lower(inputs[k])
  }

  /** The lower-case spelling of every requested note is itself requested. */
  ghost predicate AsksInLowerCase(inputs: seq<Commitment>)
  {
    forall k | 0 <= k < |inputs| && inputs[k] != "" :: Lower(inputs[k]) in inputs
  }

  /**
   Commitments are hex text and the lock compares them letter by letter, while the proof check ignores
   case. Over stores with lower-case commitments, the lock refuses every note in flight exactly when the
   request spells its notes in lower case.
   */
  lemma LockSeesEverySpellingIff(inputs: seq<Commitment>)
    ensures (forall store | LowerInputs(LockedInputs(store)) && SameNoteInFlight(store, inputs) ::
              Conflicts(store, inputs)) <==>
            AsksInLowerCase(inputs)
  {
    if AsksInLowerCase(inputs) {
      forall store | LowerInputs(LockedInputs(store)) && SameNoteInFlight(store, inputs)
        ensures Conflicts(store, inputs)
      {
        var k, c :| 0 <= k < |inputs| && inputs[k] != "" && Mentions(LockedInputs(store), c) &&
            Lower(c) == Lower(inputs[k]);
        assert Lower(c) == c && |c| == |inputs[k]|;
        var m :| 0 <= m < |inputs| && inputs[m] == c;
      }
    } else {
      var k :| 0 <= k < |inputs| && inputs[k] != "" && Lower(inputs[k]) !in inputs;
      OtherSpellingSlipsThrough(inputs, k);
    }
  }

  lemma OtherSpellingSlipsThrough(inputs: seq<Commitment>, k: nat)
    requires k < |inputs| && inputs[k] != "" && Lower(inputs[k]) !in inputs
    ensures exists store :: LowerInputs(LockedInputs(store)) && SameNoteInFlight(store, inputs) &&
              !Conflicts(store, inputs)
  {
    var c := Lower(inputs[k]);
    var held := [Input(c, Some(0))];
    var store := [Receipt("", "transfer", held, Signed, 0)];
    LowerIsLower(inputs[k]);
    assert LockedInputs(store) == held by {
      assert store[..0] == [] && LockedInputs([]) == [];
    }
    assert held[0].commitment == c;
    assert Mentions(LockedInputs(store), c);
    assert SameNoteInFlight(store, inputs);
  }
}
