/** The session-key registry: bindings, admission against their limits, the daily account and the governing binding. */
module Sessions {
  import opened Seqs

  const MAX_SESSION_BINDINGS: nat := 16
  const SECONDS_PER_DAY: nat := 86_400
  const SESSION_SCOPES: seq<string> := ["play", "buyin", "bet", "settle", "transfer"]

  type Id = string

  /** Limits are absent when `None`. `usedDay` and `usedAmount` are the daily account. */
  datatype Binding = Binding(
    id: Id,
    origin: string,
    chainId: string,
    scopes: seq<string>,
    perTx: Option<nat>,
    perDay: Option<nat>,
    tables: Option<seq<nat>>,
    validAfter: nat,
    validUntil: nat,
    registeredAt: nat,
    revoked: bool,
    usedDay: nat,
    usedAmount: nat)

  /** Bindings in the order they were added; at most one per id. */
  type Store = seq<Binding>

  function Day(now: nat): nat
  {
    now / SECONDS_PER_DAY
  }

  lemma DayMonotone(a: nat, b: nat)
    requires a <= b
    ensures Day(a) <= Day(b)
  {
  }

  function Find(store: Store, id: Id): (r: Option<Binding>)
    ensures r.Some? ==> r.value in store && r.value.id == id
    ensures r.None? ==> forall b :: b in store ==> b.id != id
  {
    if store == [] then None
    else if store[0].id == id then Some(store[0])
    else Find(store[1..], id)
  }

  /** The entry with the same id is replaced in its place; a new one goes to the end. */
  function Put(store: Store, b: Binding): (r: Store)
    ensures b in r
    ensures |r| == if Find(store, b.id).Some? then |store| else |store| + 1
  {
    if store == [] then [b]
    else if store[0].id == b.id then [b] + store[1..]
    else [store[0]] + Put(store[1..], b)
  }

  ghost predicate OnePerId(store: Store)
  {
    forall i, j | 0 <= i < j < |store| :: store[i].id != store[j].id
  }

  lemma {:induction false} PutFacts(store: Store, b: Binding)
    requires OnePerId(store)
    ensures OnePerId(Put(store, b))
    ensures forall x :: x in Put(store, b) <==> x == b || (x in store && x.id != b.id)
  {
    if store != [] {
      if store[0].id == b.id {
        assert Put(store, b) == [b] + store[1..];
        assert store == [store[0]] + store[1..];
      } else {
        PutFacts(store[1..], b);
        var rest := Put(store[1..], b);
        assert store == [store[0]] + store[1..];
        forall i | 0 <= i < |rest| ensures rest[i].id != store[0].id {
          assert rest[i] in rest;
        }
      }
    }
  }

  // ----- registration, revocation, deletion

  predicate WellFormed(b: Binding)
  {
    && b.chainId != "" && b.origin != "" && b.scopes != []
    && (forall s :: s in b.scopes ==> s in SESSION_SCOPES)
    && b.validAfter < b.validUntil
  }

  datatype Change = Changed(store: Store) | InvalidArgument | BindingLimitReached | UnknownBinding

  function UpsertBinding(store: Store, b: Binding): Change
  {
    if !WellFormed(b) then InvalidArgument
    else if Find(store, b.id).None? && |store| >= MAX_SESSION_BINDINGS then BindingLimitReached
    else Changed(Put(store, b.(revoked := false)))
  }

  function RevokeBinding(store: Store, id: Id): Change
  {
    match Find(store, id)
    case None => UnknownBinding
    case Some(b) => if b.revoked then Changed(store) else Changed(Put(store, b.(revoked := true)))
  }

  function DeleteBinding(store: Store, id: Id): Change
  {
    if Find(store, id).None? then UnknownBinding else Changed(Filter((b: Binding) => b.id != id, store))
  }

  // ----- admission

  datatype Operation = Operation(kind: string, table: Option<nat>, amount: Option<nat>)

  datatype Refusal =
    | InvalidAmount
    | SessionRevoked
    | ChainMismatch
    | NotYetValid
    | Expired
    | ScopeNotAllowed
    | TableNotAllowed
    | OverPerTxLimit
    | OverDailyLimit

  datatype Admission = Admitted(scope: string, amount: nat) | Refused(code: Refusal)

  function OperationScope(kind: string): Option<string>
  {
    if kind == "transfer" then Some("transfer")
    else if kind == "buy_in" then Some("buyin")
    else if kind == "settle" then Some("settle")
    else None
  }

  predicate TableBound(scope: string)
  {
    scope == "play" || scope == "buyin" || scope == "bet" || scope == "settle"
  }

  function UsedOn(b: Binding, day: nat): nat
  {
    if b.usedDay == day then b.usedAmount else 0
  }

  function AdmitOperation(b: Binding, op: Operation, chainId: string, now: nat): Admission
  {
    if op.amount.None? then Refused(InvalidAmount)
    else if b.revoked then Refused(SessionRevoked)
    else if b.chainId != chainId then Refused(ChainMismatch)
    else if now < b.validAfter then Refused(NotYetValid)
    else if now >= b.validUntil then Refused(Expired)
    else
      match OperationScope(op.kind)
      case None => Refused(ScopeNotAllowed)
      case Some(scope) =>
        if scope !in b.scopes then Refused(ScopeNotAllowed)
        else if b.tables.Some? && TableBound(scope) && (op.table.None? || op.table.value !in b.tables.value)
        then Refused(TableNotAllowed)
        else if b.perTx.Some? && op.amount.value > b.perTx.value then Refused(OverPerTxLimit)
        else if b.perDay.Some? && UsedOn(b, Day(now)) + op.amount.value > b.perDay.value then Refused(OverDailyLimit)
        else Admitted(scope, op.amount.value)
  }

  function RecordSpend(store: Store, id: Id, amount: nat, now: nat): Change
  {
    match Find(store, id)
    case None => UnknownBinding
    case Some(b) => Changed(Put(store, Charged(b, amount, now)))
  }

  function Charged(b: Binding, amount: nat, now: nat): Binding
  {
    b.(usedDay := Day(now), usedAmount := UsedOn(b, Day(now)) + amount)
  }

  // ----- status and the governing binding

  datatype Status = Revoked | PreValid | Lapsed | Exhausted | Active

  function BindingStatus(b: Binding, now: nat): Status
  {
    if b.revoked then Revoked
    else if now < b.validAfter then PreValid
    else if now >= b.validUntil then Lapsed
    else if b.perDay.Some? && UsedOn(b, Day(now)) >= b.perDay.value then Exhausted
    else Active
  }

  /** The scope that an operation of this kind needs; operations of other kinds have none and are never admitted. */
  ghost predicate NeedsScope(kind: string, scope: string)
  {
    (kind, scope) in {("transfer", "transfer"), ("buy_in", "buyin"), ("settle", "settle")}
  }

  /** A binding with a list of tables allows buy-ins and settlements at these tables only; transfers have no table. */
  ghost predicate TableAllowed(b: Binding, op: Operation)
  {
    b.tables.Some? && op.kind != "transfer" ==> op.table.Some? && op.table.value in b.tables.value
  }

  /** Admission in full: everything that must hold, and nothing else, and what is admitted. */
  lemma AdmittedIff(b: Binding, op: Operation, chainId: string, now: nat)
    ensures AdmitOperation(b, op, chainId, now).Admitted? <==>
            && op.amount.Some? && !b.revoked && b.chainId == chainId && b.validAfter <= now < b.validUntil
            && (exists scope :: scope in b.scopes && NeedsScope(op.kind, scope)) && TableAllowed(b, op)
            && (b.perTx.Some? ==> op.amount.value <= b.perTx.value)
            && (b.perDay.Some? ==>
                  op.amount.value + (if b.usedDay == now / 86_400 then b.usedAmount else 0) <= b.perDay.value)
    ensures AdmitOperation(b, op, chainId, now).Admitted? ==>
              && Some(AdmitOperation(b, op, chainId, now).amount) == op.amount
              && NeedsScope(op.kind, AdmitOperation(b, op, chainId, now).scope)
  {
    if OperationScope(op.kind).Some? {
      assert NeedsScope(op.kind, OperationScope(op.kind).value);
    }
  }

  /**
   Which of several reasons a refusal names: an unreadable amount, then revocation, chain, window,
   scope, table and limits.
   */
  lemma RefusalNamesTheFirst(b: Binding, op: Operation, chainId: string, now: nat)
    requires AdmitOperation(b, op, chainId, now).Refused?
    ensures var code := AdmitOperation(b, op, chainId, now).code;
            && (code == InvalidAmount <==> op.amount.None?)
            && (code == SessionRevoked <==> op.amount.Some? && b.revoked)
            && (code == ChainMismatch <==> op.amount.Some? && !b.revoked && b.chainId != chainId)
            && (code == NotYetValid ==> now < b.validAfter) && (code == Expired ==> b.validUntil <= now)
            && (code in {NotYetValid, Expired} <==>
                  op.amount.Some? && !b.revoked && b.chainId == chainId && !(b.validAfter <= now < b.validUntil))
            && (code == ScopeNotAllowed ==> forall scope | scope in b.scopes :: !NeedsScope(op.kind, scope))
            && (code in {TableNotAllowed, OverPerTxLimit, OverDailyLimit} ==>
                  b.validAfter <= now < b.validUntil && exists scope :: scope in b.scopes && NeedsScope(op.kind, scope))
            && (code == TableNotAllowed ==> !TableAllowed(b, op))
            && (code in {OverPerTxLimit, OverDailyLimit} ==> TableAllowed(b, op))
            && (code == OverPerTxLimit ==> b.perTx.Some? && op.amount.value > b.perTx.value)
            && (code == OverDailyLimit ==>
                  b.perDay.Some? && UsedOn(b, Day(now)) + op.amount.value > b.perDay.value
                  && (b.perTx.Some? ==> op.amount.value <= b.perTx.value))
  {
    if OperationScope(op.kind).Some? {
      assert NeedsScope(op.kind, OperationScope(op.kind).value);
    }
  }

  /** The status shown and the admission agree: nothing but an empty spend gets past any status other than active. */
  lemma AdmittedIsActive(b: Binding, op: Operation, chainId: string, now: nat)
    requires AdmitOperation(b, op, chainId, now).Admitted?
    ensures BindingStatus(b, now) in {Active, Exhausted}
    ensures BindingStatus(b, now) == Exhausted ==> AdmitOperation(b, op, chainId, now).amount == 0
  {
  }

  /** Conversely, an active binding refuses only for chain, scope, table or the size of this one amount. */
  lemma ActiveRefusesOnlyOverSize(b: Binding, op: Operation, chainId: string, now: nat)
    requires BindingStatus(b, now) == Active && AdmitOperation(b, op, chainId, now).Refused?
    ensures AdmitOperation(b, op, chainId, now).code in
            {InvalidAmount, ChainMismatch, ScopeNotAllowed, TableNotAllowed, OverPerTxLimit, OverDailyLimit}
    ensures AdmitOperation(b, op, chainId, now).code == OverDailyLimit ==> op.amount.value > 0
  {
  }

  predicate Enforcing(b: Binding, origin: string, chainId: string, now: nat)
  {
    b.origin == origin && b.chainId == chainId && BindingStatus(b, now) in {Active, Exhausted, Revoked}
  }

  function Newest(bs: seq<Binding>): Option<Binding>
  {
    if bs == [] then None
    else
      var rest := Newest(bs[1..]);
      if rest.Some? && rest.value.registeredAt > bs[0].registeredAt then rest else Some(bs[0])
  }

  function GoverningBinding(store: Store, origin: string, chainId: string, now: nat): Option<Binding>
  {
    Newest(Filter((b: Binding) => Enforcing(b, origin, chainId, now), store))
  }

  /** A binding enforces while it is revoked or inside its window; before and after the window it does not. */
  lemma EnforcingIff(b: Binding, origin: string, chainId: string, now: nat)
    ensures Enforcing(b, origin, chainId, now) <==>
            b.origin == origin && b.chainId == chainId && (b.revoked || b.validAfter <= now < b.validUntil)
    ensures BindingStatus(b, now) == Active ==> !b.revoked && b.validAfter <= now < b.validUntil
    ensures BindingStatus(b, now) == PreValid <==> !b.revoked && now < b.validAfter
    ensures BindingStatus(b, now) == Lapsed <==> !b.revoked && b.validAfter <= now && b.validUntil <= now
    ensures BindingStatus(b, now) == Exhausted <==>
            && !b.revoked && b.validAfter <= now < b.validUntil
            && b.perDay.Some? && b.perDay.value <= if b.usedDay == now / 86_400 then b.usedAmount else 0
  {
  }

  /**
   Registration: refused exactly for a malformed binding or a seventeenth one, otherwise stored as it is
   but not revoked.
   */
  lemma RegisteredIff(store: Store, b: Binding)
    requires OnePerId(store)
    ensures UpsertBinding(store, b).InvalidArgument? <==> !WellFormed(b)
    ensures UpsertBinding(store, b).BindingLimitReached? <==>
            WellFormed(b) && |store| >= 16 && forall x :: x in store ==> x.id != b.id
    ensures UpsertBinding(store, b).Changed? <==>
            WellFormed(b) && (|store| < 16 || exists x :: x in store && x.id == b.id)
    ensures UpsertBinding(store, b).Changed? ==>
              forall x :: x in UpsertBinding(store, b).store <==>
                (if x.id == b.id then x == b.(revoked := false) else x in store)
    ensures WellFormed(b) <==>
            && b.chainId != "" && b.origin != "" && b.scopes != [] && b.validAfter < b.validUntil
            && forall s :: s in b.scopes ==> s in {"play", "buyin", "bet", "settle", "transfer"}
  {
    PutFacts(store, b.(revoked := false));
    assert forall s :: s in SESSION_SCOPES <==> s in {"play", "buyin", "bet", "settle", "transfer"};
  }

  /** Of equally new bindings the one stored first governs. */
  lemma {:induction false} NewestIsFirst(bs: seq<Binding>) returns (i: nat)
    requires bs != []
    ensures i < |bs| && Newest(bs) == Some(bs[i])
    ensures forall k :: 0 <= k < i ==> bs[k].registeredAt < bs[i].registeredAt
    ensures forall k :: i < k < |bs| ==> bs[k].registeredAt <= bs[i].registeredAt
  {
    i := 0;
    if |bs| > 1 {
      var j := NewestIsFirst(bs[1..]);
      if bs[j + 1].registeredAt > bs[0].registeredAt {
        i := j + 1;
      } else {
        assert forall k :: 0 < k < |bs| ==> bs[k] == bs[1..][k - 1];
      }
      assert forall k :: 0 < k < |bs| ==> bs[k] == bs[1..][k - 1];
    }
  }

  lemma {:induction false} NewestFacts(bs: seq<Binding>)
    ensures Newest(bs).None? <==> bs == []
    ensures Newest(bs).Some? ==>
              Newest(bs).value in bs && forall b :: b in bs ==> b.registeredAt <= Newest(bs).value.registeredAt
  {
    if bs != [] {
      NewestFacts(bs[1..]);
      assert bs == [bs[0]] + bs[1..];
    }
  }

  lemma GoverningIsNewestEnforcing(store: Store, origin: string, chainId: string, now: nat)
    ensures var g := GoverningBinding(store, origin, chainId, now);
            && (g.None? <==> forall b :: b in store ==> !Enforcing(b, origin, chainId, now))
            && (g.Some? ==>
                  && g.value in store && Enforcing(g.value, origin, chainId, now)
                  && forall b :: b in store && Enforcing(b, origin, chainId, now) ==>
                      b.registeredAt <= g.value.registeredAt)
  {
    var enforcing := Filter((b: Binding) => Enforcing(b, origin, chainId, now), store);
    NewestFacts(enforcing);
    if enforcing != [] {
      assert enforcing[0] in enforcing;
    }
  }

  function StoreAfter(c: Change, store: Store): Store
  {
    if c.Changed? then c.store else store
  }

  lemma FindUnique(store: Store, b: Binding)
    requires OnePerId(store) && b in store
    ensures Find(store, b.id) == Some(b)
  {
    var c := Find(store, b.id).value;
    var i :| 0 <= i < |store| && store[i] == b;
    var j :| 0 <= j < |store| && store[j] == c;
    assert i < j ==> store[i].id != store[j].id;
    assert j < i ==> store[j].id != store[i].id;
  }

  lemma {:induction false} FilterKeepsOnePerId(store: Store, p: Binding -> bool)
    requires OnePerId(store)
    ensures OnePerId(Filter(p, store))
  {
    if store != [] {
      FilterKeepsOnePerId(store[1..], p);
      var rest := Filter(p, store[1..]);
      forall i | 0 <= i < |rest| ensures rest[i].id != store[0].id {
        assert rest[i] in rest;
        assert rest[i] in store[1..];
      }
    }
  }

  lemma GoverningInStore(store: Store, origin: string, chainId: string, now: nat)
    requires GoverningBinding(store, origin, chainId, now).Some?
    ensures GoverningBinding(store, origin, chainId, now).value in store
    ensures GoverningBinding(store, origin, chainId, now).value.origin == origin
  {
    GoverningIsNewestEnforcing(store, origin, chainId, now);
  }

  /** Deletion is not the only way out of revocation: registering the id again is the other. */
  lemma RegisteringClearsRevocation(store: Store, b: Binding)
    requires OnePerId(store) && b in store && b.revoked && WellFormed(b)
    ensures UpsertBinding(store, b).Changed?
    ensures Find(UpsertBinding(store, b).store, b.id) == Some(b.(revoked := false))
  {
    FindUnique(store, b);
    PutFacts(store, b.(revoked := false));
    FindUnique(UpsertBinding(store, b).store, b.(revoked := false));
  }

  // ----- two ways past the daily limit

  function Limited(): Binding
  {
    Binding("id", "o", "c", ["transfer"], None, Some(10), None, 0, 1_000_000, 0, false, 0, 0)
  }

  /** Admission and recording as two steps: two requests admitted before either is recorded exceed the daily limit. */
  lemma AdmitTwiceBeforeRecording()
    ensures var b := Limited();
            var op := Operation("transfer", None, Some(10));
            && AdmitOperation(b, op, "c", 0).Admitted?
            && var once := RecordSpend([b], "id", 10, 0);
            && once.Changed?
            && var twice := RecordSpend(once.store, "id", 10, 0);
            && twice.Changed? && twice.store[0].usedAmount > b.perDay.value
  {
  }

  /** A clock that goes back to an earlier day and forward again spends one day's limit twice. */
  lemma ClockBackSpendsTwice()
    ensures var b, op := Limited(), Operation("transfer", None, Some(10));
            var later, earlier := SECONDS_PER_DAY, 0;
            var first := Charged(b, 10, later);
            var second := Charged(first, 10, earlier);
            && AdmitOperation(b, op, "c", later).Admitted?
            && AdmitOperation(first, op, "c", earlier).Admitted?
            && AdmitOperation(second, op, "c", later).Admitted?
            && 10 + 10 > b.perDay.value
  {
  }
}
