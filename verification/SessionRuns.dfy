/**
 Runs of the session registry. A request is admitted, waits for the user's decision, and when it has been
 signed its spend is recorded. Recording, registering, revoking and deleting all load the registry and
 write back the changed copy; other messages may run between any two of these steps.
 */
module SessionRuns {
  import opened Seqs
  import opened Sessions

  datatype Ask = Ask(origin: string, op: Operation, chainId: string)

  /**
   A change on its way to the registry. A charge belongs to an admitted request: the binding and amount it
   was admitted under, and when.
   */
  datatype Write =
    | Charge(id: Id, amount: nat, ask: Ask, admitted: nat)
    | Register(binding: Binding)
    | Revoke(id: Id)
    | Delete(id: Id)

  datatype Phase = Waiting | Loaded(snapshot: Store) | Done

  datatype Task = Task(write: Write, phase: Phase)

  /** A signed request, at the time it was recorded. */
  datatype Spend = Spend(id: Id, amount: nat, now: nat, ask: Ask, admitted: nat)

  /** `log` holds what was signed under the current registration of each id; `time` is the latest clock reading. */
  datatype State = State(store: Store, tasks: seq<Task>, log: seq<Spend>, time: nat)

  datatype Event =
    | Arrive(write: Write)
    | Admit(ask: Ask, now: nat)
    | Abandon(k: nat)
    | Load(k: nat)
    | Save(k: nat, now: nat)

  function Without(log: seq<Spend>, id: Id): seq<Spend>
  {
    Filter((e: Spend) => e.id != id, log)
  }

  function Finished(t: Task): Task
  {
    t.(phase := Done)
  }

  function Signed(w: Write, now: nat): Spend
    requires w.Charge?
  {
    Spend(w.id, w.amount, now, w.ask, w.admitted)
  }

  function Apply(w: Write, store: Store, now: nat): Change
  {
    match w
    case Charge(id, amount, _, _) => RecordSpend(store, id, amount, now)
    case Register(b) => UpsertBinding(store, b)
    case Revoke(id) => RevokeBinding(store, id)
    case Delete(id) => DeleteBinding(store, id)
  }

  /** A new registration or a deletion ends the old one's log. A signature counts even if its charge is refused. */
  function LogAfter(log: seq<Spend>, w: Write, changed: bool, now: nat): seq<Spend>
  {
    match w
    case Charge(_, _, _, _) => log + [Signed(w, now)]
    case Register(b) => if changed then Without(log, b.id) else log
    case Revoke(_) => log
    case Delete(id) => if changed then Without(log, id) else log
  }

  /** The answer of the admission; without a governing binding there is no limit to check. */
  function Admission(store: Store, ask: Ask, now: nat): Option<(Binding, nat)>
  {
    var g := GoverningBinding(store, ask.origin, ask.chainId, now);
    if g.None? then None
    else
      var a := AdmitOperation(g.value, ask.op, ask.chainId, now);
      if a.Admitted? then Some((g.value, a.amount)) else None
  }

  function Next(s: State, e: Event): State
  {
    match e
    case Arrive(write) => if write.Charge? then s else s.(tasks := s.tasks + [Task(write, Waiting)])
    case Admit(ask, now) =>
      var a := Admission(s.store, ask, now);
      if a.None? then s.(time := now)
      else s.(tasks := s.tasks + [Admitted(a.value.0, a.value.1, ask, now)], time := now)
    case Abandon(k) =>
      if k < |s.tasks| && s.tasks[k].phase.Waiting? then s.(tasks := s.tasks[k := Finished(s.tasks[k])]) else s
    case Load(k) =>
      if k < |s.tasks| && s.tasks[k].phase.Waiting?
      then s.(tasks := s.tasks[k := s.tasks[k].(phase := Loaded(s.store))])
      else s
    case Save(k, now) =>
      if k < |s.tasks| && s.tasks[k].phase.Loaded? then Saved(s, k, now) else s
  }

  function Admitted(b: Binding, amount: nat, ask: Ask, now: nat): Task
  {
    Task(Charge(b.id, amount, ask, now), Waiting)
  }

  /** A change that is refused on the copy writes nothing. */
  function Saved(s: State, k: nat, now: nat): State
    requires k < |s.tasks| && s.tasks[k].phase.Loaded?
  {
    var t := s.tasks[k];
    var c := Apply(t.write, t.phase.snapshot, now);
    State(StoreAfter(c, s.store), s.tasks[k := Finished(t)], LogAfter(s.log, t.write, c.Changed?, now), now)
  }

  ghost function RunFrom(s: State, events: seq<Event>): State
  {
    if events == [] then s else Next(RunFrom(s, events[..|events| - 1]), events[|events| - 1])
  }

  lemma RunSnoc(s: State, events: seq<Event>, e: Event)
    ensures RunFrom(s, events + [e]) == Next(RunFrom(s, events), e)
  {
    assert (events + [e])[..|events|] == events;
  }

  // ----- sums over the log and over the requests under way

  ghost function SpentOn(log: seq<Spend>, id: Id, day: nat): nat
  {
    if log == [] then 0
    else
      var last := log[|log| - 1];
      SpentOn(log[..|log| - 1], id, day) + if last.id == id && Day(last.now) == day then last.amount else 0
  }

  ghost function Share(t: Task, id: Id): nat
  {
    if t.write.Charge? && t.write.id == id && !t.phase.Done? then t.write.amount else 0
  }

  /** What requests admitted under a binding and not yet recorded will add to it. */
  ghost function Awaiting(tasks: seq<Task>, id: Id): nat
  {
    if tasks == [] then 0 else Awaiting(tasks[..|tasks| - 1], id) + Share(tasks[|tasks| - 1], id)
  }

  lemma SpentSnoc(log: seq<Spend>, e: Spend, id: Id, day: nat)
    ensures SpentOn(log + [e], id, day) ==
            SpentOn(log, id, day) + if e.id == id && Day(e.now) == day then e.amount else 0
  {
    assert (log + [e])[..|log|] == log;
  }

  lemma AwaitingSnoc(tasks: seq<Task>, t: Task, id: Id)
    ensures Awaiting(tasks + [t], id) == Awaiting(tasks, id) + Share(t, id)
  {
    assert (tasks + [t])[..|tasks|] == tasks;
  }

  lemma {:induction false} AwaitingUpdate(tasks: seq<Task>, k: nat, t: Task, id: Id)
    requires k < |tasks|
    ensures Awaiting(tasks[k := t], id) + Share(tasks[k], id) == Awaiting(tasks, id) + Share(t, id)
  {
    var n := |tasks| - 1;
    if k < n {
      AwaitingUpdate(tasks[..n], k, t, id);
      assert tasks[k := t][..n] == tasks[..n][k := t];
    } else {
      assert tasks[k := t][..n] == tasks[..n];
    }
  }

  lemma WithoutSnoc(log: seq<Spend>, e: Spend, id: Id)
    ensures Without(log + [e], id) == if e.id == id then Without(log, id) else Without(log, id) + [e]
  {
    FilterConcat((x: Spend) => x.id != id, log, [e]);
    assert [e][1..] == [];
  }

  lemma {:induction false} SpentWithout(log: seq<Spend>, id: Id, other: Id, day: nat)
    ensures SpentOn(Without(log, id), other, day) == if other == id then 0 else SpentOn(log, other, day)
  {
    if log != [] {
      var before, last := log[..|log| - 1], log[|log| - 1];
      SpentWithout(before, id, other, day);
      assert log == before + [last];
      WithoutSnoc(before, last, id);
      SpentSnoc(before, last, other, day);
      SpentSnoc(Without(before, id), last, other, day);
    }
  }

  lemma {:induction false} NothingSpentOn(log: seq<Spend>, id: Id, day: nat)
    requires forall e :: e in log && e.id == id ==> Day(e.now) != day
    ensures SpentOn(log, id, day) == 0
  {
    if log != [] {
      assert log[|log| - 1] in log;
      NothingSpentOn(log[..|log| - 1], id, day);
    }
  }

  // ----- exactly when the requests under way stay within the daily limit

  /** What is under way loads and saves, in any interleaving, with a clock that shows nothing before `first`. */
  ghost predicate Finishing(events: seq<Event>, first: nat)
  {
    forall i :: 0 <= i < |events| ==> events[i].Load? || (events[i].Save? && first <= events[i].now)
  }

  ghost predicate Within(log: seq<Spend>, id: Id, limit: nat)
  {
    forall day :: SpentOn(log, id, day) <= limit
  }

  lemma ChargedSums(s: State, k: nat, now: nat, id: Id, day: nat)
    requires k < |s.tasks| && s.tasks[k].phase.Loaded? && s.tasks[k].write.Charge?
    ensures Awaiting(Saved(s, k, now).tasks, id) + Share(s.tasks[k], id) == Awaiting(s.tasks, id)
    ensures SpentOn(Saved(s, k, now).log, id, day) ==
            SpentOn(s.log, id, day) + if Day(now) == day then Share(s.tasks[k], id) else 0
  {
    AwaitingUpdate(s.tasks, k, Finished(s.tasks[k]), id);
    SpentSnoc(s.log, Signed(s.tasks[k].write, now), id, day);
  }

  /** Saving moves the amount of a charge to the day of the save; no other write adds to a sum. */
  lemma SavedSums(s: State, k: nat, now: nat, id: Id, day: nat)
    requires k < |s.tasks| && s.tasks[k].phase.Loaded?
    ensures var t := Saved(s, k, now);
            && SpentOn(t.log, id, day) + Awaiting(t.tasks, id) <= SpentOn(s.log, id, day) + Awaiting(s.tasks, id)
            && (day != Day(now) ==> SpentOn(t.log, id, day) <= SpentOn(s.log, id, day))
  {
    var w := s.tasks[k].write;
    match w
    case Charge(_, _, _, _) => ChargedSums(s, k, now, id, day);
    case Register(b) => ReplacedSums(s, k, now, b.id, id, day);
    case Revoke(_) => AwaitingUpdate(s.tasks, k, Finished(s.tasks[k]), id);
    case Delete(other) => ReplacedSums(s, k, now, other, id, day);
  }

  lemma ReplacedSums(s: State, k: nat, now: nat, other: Id, id: Id, day: nat)
    requires k < |s.tasks| && s.tasks[k].phase.Loaded? && !s.tasks[k].write.Charge?
    requires Saved(s, k, now).log == s.log || Saved(s, k, now).log == Without(s.log, other)
    ensures SpentOn(Saved(s, k, now).log, id, day) <= SpentOn(s.log, id, day)
    ensures Awaiting(Saved(s, k, now).tasks, id) == Awaiting(s.tasks, id)
  {
    AwaitingUpdate(s.tasks, k, Finished(s.tasks[k]), id);
    SpentWithout(s.log, other, id, day);
  }

  /** Finishing moves amounts from the requests under way to days that the clock may show. */
  lemma {:induction false} FinishingMoves(s: State, events: seq<Event>, first: nat, id: Id, day: nat)
    requires Finishing(events, first)
    ensures var t := RunFrom(s, events);
            && SpentOn(t.log, id, day) + Awaiting(t.tasks, id) <= SpentOn(s.log, id, day) + Awaiting(s.tasks, id)
            && (day < Day(first) ==> SpentOn(t.log, id, day) <= SpentOn(s.log, id, day))
  {
    if events != [] {
      var before, last := RunFrom(s, events[..|events| - 1]), events[|events| - 1];
      FinishingMoves(s, events[..|events| - 1], first, id, day);
      FinishingStep(before, last, first, id, day);
    }
  }

  lemma FinishingStep(s: State, e: Event, first: nat, id: Id, day: nat)
    requires e.Load? || (e.Save? && first <= e.now)
    ensures var t := Next(s, e);
            && SpentOn(t.log, id, day) + Awaiting(t.tasks, id) <= SpentOn(s.log, id, day) + Awaiting(s.tasks, id)
            && (day < Day(first) ==> SpentOn(t.log, id, day) <= SpentOn(s.log, id, day))
  {
    if e.k < |s.tasks| {
      match e
      case Load(k) =>
        AwaitingUpdate(s.tasks, k, s.tasks[k].(phase := Loaded(s.store)), id);
      case Save(k, now) =>
        if s.tasks[k].phase.Loaded? {
          SavedSums(s, k, now, id, day);
          DayMonotone(first, now);
        }
    }
  }

  /** Every admitted request recorded at one moment, in turn. */
  function FinishAll(tasks: seq<Task>, n: nat, now: nat): seq<Event>
    requires n <= |tasks|
  {
    if n == 0 then []
    else if tasks[n - 1].write.Charge? then FinishAll(tasks, n - 1, now) + [Load(n - 1)] + [Save(n - 1, now)]
    else FinishAll(tasks, n - 1, now)
  }

  lemma {:induction false} FinishAllIsFinishing(tasks: seq<Task>, n: nat, now: nat, first: nat)
    requires n <= |tasks| && first <= now
    ensures Finishing(FinishAll(tasks, n, now), first)
  {
    if n > 0 {
      FinishAllIsFinishing(tasks, n - 1, now, first);
    }
  }

  lemma FinishStep(s: State, k: nat, now: nat, id: Id)
    requires k < |s.tasks| && s.tasks[k].write.Charge?
    ensures var t := Next(Next(s, Load(k)), Save(k, now));
            && |t.tasks| == |s.tasks| && (forall m :: 0 <= m < |s.tasks| && m != k ==> t.tasks[m] == s.tasks[m])
            && SpentOn(t.log, id, Day(now)) == SpentOn(s.log, id, Day(now)) + Share(s.tasks[k], id)
  {
    var loaded := Next(s, Load(k));
    if loaded.tasks[k].phase.Loaded? {
      ChargedSums(loaded, k, now, id, Day(now));
    }
  }

  lemma {:induction false} FinishAllSpends(s: State, n: nat, now: nat, id: Id)
    requires n <= |s.tasks|
    ensures var t := RunFrom(s, FinishAll(s.tasks, n, now));
            && |t.tasks| == |s.tasks| && (forall m :: n <= m < |s.tasks| ==> t.tasks[m] == s.tasks[m])
            && SpentOn(t.log, id, Day(now)) == SpentOn(s.log, id, Day(now)) + Awaiting(s.tasks[..n], id)
  {
    if n > 0 {
      var events := FinishAll(s.tasks, n - 1, now);
      FinishAllSpends(s, n - 1, now, id);
      assert s.tasks[..n][..n - 1] == s.tasks[..n - 1];
      if s.tasks[n - 1].write.Charge? {
        RunSnoc(s, events, Load(n - 1));
        RunSnoc(s, events + [Load(n - 1)], Save(n - 1, now));
        FinishStep(RunFrom(s, events), n - 1, now, id);
      }
    }
  }

  /** A day that the clock may still show. */
  lemma SomeReading(first: nat, day: nat) returns (now: nat)
    requires Day(first) <= day
    ensures first <= now && Day(now) == day
  {
    now := if first <= day * SECONDS_PER_DAY then day * SECONDS_PER_DAY else first;
    if first > day * SECONDS_PER_DAY {
      DayMonotone(day * SECONDS_PER_DAY, first);
    }
  }

  /**
   However the requests and changes under way are saved, a binding's daily limit holds exactly when, on
   every day the clock may still show, what was spent that day and all that is under way fit into it.
   */
  lemma LimitHoldsIff(s: State, id: Id, limit: nat, first: nat)
    requires Within(s.log, id, limit)
    ensures (forall events | Finishing(events, first) :: Within(RunFrom(s, events).log, id, limit)) <==>
            (forall day | Day(first) <= day :: SpentOn(s.log, id, day) + Awaiting(s.tasks, id) <= limit)
  {
    if forall day | Day(first) <= day :: SpentOn(s.log, id, day) + Awaiting(s.tasks, id) <= limit {
      forall events, day | Finishing(events, first) ensures SpentOn(RunFrom(s, events).log, id, day) <= limit {
        FinishingMoves(s, events, first, id, day);
      }
    } else {
      var day :| Day(first) <= day && SpentOn(s.log, id, day) + Awaiting(s.tasks, id) > limit;
      var now := SomeReading(first, day);
      FinishAllIsFinishing(s.tasks, |s.tasks|, now, first);
      FinishAllSpends(s, |s.tasks|, now, id);
      assert s.tasks[..|s.tasks|] == s.tasks;
    }
  }

  /** The same request, asked `n` times before any of it is recorded. */
  function Repeated(ask: Ask, now: nat, n: nat): seq<Event>
  {
    if n == 0 then [] else Repeated(ask, now, n - 1) + [Admit(ask, now)]
  }

  lemma {:induction false} EveryRepeatAdmitted(s: State, ask: Ask, now: nat, n: nat)
    requires Admission(s.store, ask, now).Some?
    ensures var t, a := RunFrom(s, Repeated(ask, now, n)), Admission(s.store, ask, now).value;
            t.store == s.store && t.log == s.log &&
            Awaiting(t.tasks, a.0.id) == Awaiting(s.tasks, a.0.id) + n * a.1
  {
    if n > 0 {
      var before, a := RunFrom(s, Repeated(ask, now, n - 1)), Admission(s.store, ask, now).value;
      EveryRepeatAdmitted(s, ask, now, n - 1);
      RunSnoc(s, Repeated(ask, now, n - 1), Admit(ask, now));
      AwaitingSnoc(before.tasks, Admitted(a.0, a.1, ask, now), a.0.id);
      assert n * a.1 == (n - 1) * a.1 + a.1;
    }
  }

  lemma {:induction false} RunConcat(s: State, first: seq<Event>, rest: seq<Event>)
    ensures RunFrom(s, first + rest) == RunFrom(RunFrom(s, first), rest)
  {
    if rest == [] {
      assert first + rest == first;
    } else {
      var shorter, last := rest[..|rest| - 1], rest[|rest| - 1];
      RunConcat(s, first, shorter);
      RunSnoc(s, first + shorter, last);
      RunSnoc(RunFrom(s, first), shorter, last);
      LastSplit(rest);
      Associative(first, shorter, [last]);
    }
  }

  /** So an account that still admits some positive amount bounds nothing: overlapping requests pass any limit. */
  lemma OverlapsPassAnyLimit(s: State, ask: Ask, now: nat, limit: nat) returns (events: seq<Event>)
    requires Admission(s.store, ask, now).Some? && Admission(s.store, ask, now).value.1 > 0
    ensures SpentOn(RunFrom(s, events).log, Admission(s.store, ask, now).value.0.id, Day(now)) > limit
  {
    var a := Admission(s.store, ask, now).value;
    var t := RunFrom(s, Repeated(ask, now, limit + 1));
    EveryRepeatAdmitted(s, ask, now, limit + 1);
    AtLeastAsMany(limit + 1, a.1);
    AllFinished(t, now, a.0.id);
    RunConcat(s, Repeated(ask, now, limit + 1), FinishAll(t.tasks, |t.tasks|, now));
    events := Repeated(ask, now, limit + 1) + FinishAll(t.tasks, |t.tasks|, now);
  }

  lemma AtLeastAsMany(n: nat, amount: nat)
    requires amount > 0
    ensures n * amount >= n
  {
  }

  lemma AllFinished(t: State, now: nat, id: Id)
    ensures SpentOn(RunFrom(t, FinishAll(t.tasks, |t.tasks|, now)).log, id, Day(now)) >= Awaiting(t.tasks, id)
  {
    FinishAllSpends(t, |t.tasks|, now, id);
    assert t.tasks[..|t.tasks|] == t.tasks;
  }

  /** The largest amount the limits of a binding let through at a time, when its account is not overdrawn. */
  function Largest(b: Binding, now: nat): nat
    requires b.perDay.Some? && UsedOn(b, Day(now)) <= b.perDay.value
  {
    var left := b.perDay.value - UsedOn(b, Day(now));
    if b.perTx.Some? && b.perTx.value < left then b.perTx.value else left
  }

  /** The same request for another amount. */
  function Asking(ask: Ask, amount: nat): Ask
  {
    ask.(op := ask.op.(amount := Some(amount)))
  }

  /** The governing binding does not depend on the amount, and it lets through exactly what `Largest` says. */
  lemma AdmittedUpToLargest(store: Store, ask: Ask, now: nat, amount: nat)
    requires Admission(store, ask, now).Some? && Admission(store, ask, now).value.0.perDay.Some?
    ensures var b := Admission(store, ask, now).value.0;
            && UsedOn(b, Day(now)) <= b.perDay.value
            && Admission(store, Asking(ask, amount), now) ==
               if amount <= Largest(b, now) then Some((b, amount)) else None
  {
  }

  /** The daily limit holds however all that is under way is saved. */
  ghost predicate SafeAfter(t: State, b: Binding, first: nat)
    requires b.perDay.Some?
  {
    forall events | Finishing(events, first) :: Within(RunFrom(t, events).log, b.id, b.perDay.value)
  }

  /** The amount fits, on every day the clock may show, next to what was really spent and what is under way. */
  ghost predicate Fits(s: State, b: Binding, now: nat, amount: nat)
    requires b.perDay.Some?
  {
    forall day | Day(now) <= day :: SpentOn(s.log, b.id, day) + Awaiting(s.tasks, b.id) + amount <= b.perDay.value
  }

  /**
   An admission looks at the account only. Whatever amount it lets through and however all that is then
   under way is saved, the daily limit holds exactly when the largest amount still fits.
   */
  lemma AdmissionSafeIff(s: State, ask: Ask, now: nat)
    requires Admission(s.store, ask, now).Some? && Admission(s.store, ask, now).value.0.perDay.Some?
    requires var b := Admission(s.store, ask, now).value.0; Within(s.log, b.id, b.perDay.value)
    ensures var b := Admission(s.store, ask, now).value.0;
            && UsedOn(b, Day(now)) <= b.perDay.value
            && ((forall amount | Admission(s.store, Asking(ask, amount), now).Some? ::
                   SafeAfter(Next(s, Admit(Asking(ask, amount), now)), b, now)) <==>
                Fits(s, b, now, Largest(b, now)))
  {
    var b := Admission(s.store, ask, now).value.0;
    AdmittedUpToLargest(s.store, ask, now, 0);
    var most := Largest(b, now);
    forall amount | Admission(s.store, Asking(ask, amount), now).Some?
      ensures amount <= most
      ensures SafeAfter(Next(s, Admit(Asking(ask, amount), now)), b, now) <==> Fits(s, b, now, amount)
    {
      AdmittedUpToLargest(s.store, ask, now, amount);
      OneMoreFits(s, b, Asking(ask, amount), now, amount);
    }
    AdmittedUpToLargest(s.store, ask, now, most);
    assert SafeAfter(Next(s, Admit(Asking(ask, most), now)), b, now) <==> Fits(s, b, now, most);
  }

  lemma OneMoreFits(s: State, b: Binding, ask: Ask, now: nat, amount: nat)
    requires b.perDay.Some? && Within(s.log, b.id, b.perDay.value)
    requires Admission(s.store, ask, now) == Some((b, amount))
    ensures SafeAfter(Next(s, Admit(ask, now)), b, now) <==> Fits(s, b, now, amount)
  {
    var t := Next(s, Admit(ask, now));
    AwaitingSnoc(s.tasks, Admitted(b, amount, ask, now), b.id);
    assert t.log == s.log && Awaiting(t.tasks, b.id) == Awaiting(s.tasks, b.id) + amount;
    LimitHoldsIff(t, b.id, b.perDay.value, now);
    if SafeAfter(t, b, now) {
      assert forall day | Day(now) <= day :: SpentOn(t.log, b.id, day) + Awaiting(t.tasks, b.id) <= b.perDay.value;
    }
    if Fits(s, b, now, amount) {
      forall day | Day(now) <= day ensures SpentOn(t.log, b.id, day) + Awaiting(t.tasks, b.id) <= b.perDay.value {
        assert SpentOn(s.log, b.id, day) + Awaiting(s.tasks, b.id) + amount <= b.perDay.value;
      }
    }
  }

  // ----- exactly when the account remembers a day

  datatype Payment = Payment(amount: nat, now: nat)

  function ChargedAll(b: Binding, charges: seq<Payment>): Binding
  {
    if charges == [] then b
    else
      var last := charges[|charges| - 1];
      Charged(ChargedAll(b, charges[..|charges| - 1]), last.amount, last.now)
  }

  function TotalOn(charges: seq<Payment>, day: nat): nat
  {
    if charges == [] then 0
    else
      var last := charges[|charges| - 1];
      TotalOn(charges[..|charges| - 1], day) + if Day(last.now) == day then last.amount else 0
  }

  /** Something was spent on the day, and later something was recorded on another day. */
  ghost predicate LeftBehind(charges: seq<Payment>, day: nat)
  {
    exists i, j :: 0 <= i < j < |charges| &&
                   Day(charges[i].now) == day && charges[i].amount > 0 && Day(charges[j].now) != day
  }

  ghost predicate AnySpent(charges: seq<Payment>, day: nat)
  {
    exists i :: 0 <= i < |charges| && Day(charges[i].now) == day && charges[i].amount > 0
  }

  lemma {:induction false} TotalPositive(charges: seq<Payment>, day: nat)
    ensures TotalOn(charges, day) > 0 <==> AnySpent(charges, day)
  {
    if charges != [] {
      var before := charges[..|charges| - 1];
      TotalPositive(before, day);
      assert forall i :: 0 <= i < |before| ==> before[i] == charges[i];
    }
  }

  lemma LeftBehindSnoc(charges: seq<Payment>, day: nat)
    requires charges != []
    ensures var before, last := charges[..|charges| - 1], charges[|charges| - 1];
            LeftBehind(charges, day) <==> LeftBehind(before, day) || (Day(last.now) != day && AnySpent(before, day))
  {
    var before := charges[..|charges| - 1];
    assert forall i :: 0 <= i < |before| ==> before[i] == charges[i];
    if Day(charges[|charges| - 1].now) != day && AnySpent(before, day) {
      var i :| 0 <= i < |before| && Day(before[i].now) == day && before[i].amount > 0;
      assert Day(charges[i].now) == day && charges[i].amount > 0;
    }
  }

  /**
   The account is one day and one amount. It knows what was spent on a day exactly unless the clock left
   that day after something was spent on it, and it never claims more.
   */
  lemma {:induction false} AccountExactIff(b: Binding, charges: seq<Payment>, day: nat)
    requires b.usedAmount == 0
    ensures UsedOn(ChargedAll(b, charges), day) <= TotalOn(charges, day)
    ensures UsedOn(ChargedAll(b, charges), day) == TotalOn(charges, day) <==> !LeftBehind(charges, day)
  {
    if charges != [] {
      var before := charges[..|charges| - 1];
      AccountExactIff(b, before, day);
      TotalPositive(before, day);
      LeftBehindSnoc(charges, day);
    }
  }

  // ----- runs in which the admission counts what is under way

  ghost predicate NoneLoaded(tasks: seq<Task>)
  {
    forall k :: 0 <= k < |tasks| ==> !tasks[k].phase.Loaded?
  }

  ghost predicate Awaited(tasks: seq<Task>, id: Id)
  {
    exists k :: 0 <= k < |tasks| && tasks[k].write.Charge? && tasks[k].write.id == id && !tasks[k].phase.Done?
  }

  /** The write puts another registration in the place of the binding, or none. */
  ghost predicate Replaces(w: Write, id: Id)
  {
    (w.Register? && w.binding.id == id) || (w.Delete? && w.id == id)
  }

  ghost predicate Replacing(tasks: seq<Task>, id: Id)
  {
    exists k :: 0 <= k < |tasks| && tasks[k].phase.Loaded? && Replaces(tasks[k].write, id)
  }

  /** The amount also fits next to the requests under way. */
  ghost predicate CountsAwaiting(s: State, ask: Ask, now: nat)
  {
    var a := Admission(s.store, ask, now);
    a.Some? && a.value.0.perDay.Some? ==>
      UsedOn(a.value.0, Day(now)) + Awaiting(s.tasks, a.value.0.id) + a.value.1 <= a.value.0.perDay.value
  }

  /**
   A forward clock, one writer at a time between load and save, admissions that count what is under way, and
   no binding replaced while it has requests under way.
   */
  ghost predicate Guarded(s: State, e: Event)
  {
    match e
    case Arrive(_) => true
    case Admit(ask, now) =>
      && s.time <= now && CountsAwaiting(s, ask, now)
      && (Admission(s.store, ask, now).Some? ==> !Replacing(s.tasks, Admission(s.store, ask, now).value.0.id))
    case Load(k) =>
      && NoneLoaded(s.tasks)
      && (k < |s.tasks| ==> forall id :: Replaces(s.tasks[k].write, id) ==> !Awaited(s.tasks, id))
    case Save(_, now) => s.time <= now
    case Abandon(_) => true
  }

  ghost predicate GuardedRun(s: State, events: seq<Event>)
  {
    events == [] ||
    (GuardedRun(s, events[..|events| - 1]) && Guarded(RunFrom(s, events[..|events| - 1]), events[|events| - 1]))
  }

  /** The binding is for this origin and chain, and allows this kind of operation at this table. */
  ghost predicate Allows(b: Binding, ask: Ask)
  {
    && b.origin == ask.origin && b.chainId == ask.chainId
    && (exists scope :: scope in b.scopes && NeedsScope(ask.op.kind, scope)) && TableAllowed(b, ask.op)
  }

  /** What its admission established for a request, then and now. */
  ghost predicate Backed(b: Binding, amount: nat, ask: Ask, admitted: nat)
  {
    && Allows(b, ask) && ask.op.amount == Some(amount)
    && (b.perTx.Some? ==> amount <= b.perTx.value)
    && b.validAfter <= admitted < b.validUntil
  }

  ghost predicate Covered(b: Binding, e: Spend, time: nat)
  {
    Backed(b, e.amount, e.ask, e.admitted) && e.admitted <= e.now <= time && Day(e.now) <= b.usedDay <= Day(time)
  }

  ghost predicate WithinLimits(b: Binding, log: seq<Spend>)
  {
    && (b.perDay.Some? ==> Within(log, b.id, b.perDay.value))
    && SpentOn(log, b.id, b.usedDay) <= b.usedAmount
  }

  ghost predicate Room(b: Binding, s: State)
  {
    b.perDay.Some? ==> SpentOn(s.log, b.id, Day(s.time)) + Awaiting(s.tasks, b.id) <= b.perDay.value
  }

  ghost predicate LogOk(s: State)
  {
    && (forall e :: e in s.log ==> Find(s.store, e.id).Some?)
    && (forall b, e :: b in s.store && e in s.log && e.id == b.id ==> Covered(b, e, s.time))
  }

  ghost predicate TaskOk(s: State, t: Task)
  {
    && (t.phase.Loaded? ==> t.phase.snapshot == s.store)
    && (t.write.Charge? ==>
          && Find(s.store, t.write.id).Some? && t.write.admitted <= s.time
          && forall b :: b in s.store && b.id == t.write.id ==>
               Backed(b, t.write.amount, t.write.ask, t.write.admitted))
  }

  ghost predicate TasksOk(s: State)
  {
    && (forall k :: 0 <= k < |s.tasks| && !s.tasks[k].phase.Done? ==> TaskOk(s, s.tasks[k]))
    && (forall i, j :: 0 <= i < j < |s.tasks| && s.tasks[i].phase.Loaded? ==> !s.tasks[j].phase.Loaded?)
    && (forall id :: Replacing(s.tasks, id) ==> !Awaited(s.tasks, id))
  }

  ghost predicate LimitsOk(s: State)
  {
    forall b :: b in s.store ==> WithinLimits(b, s.log) && Room(b, s)
  }

  ghost predicate Kept(s: State)
  {
    OnePerId(s.store) && |s.store| <= MAX_SESSION_BINDINGS && LogOk(s) && TasksOk(s) && LimitsOk(s)
  }

  // ----- each step keeps the limits

  lemma {:induction false} NotAwaited(tasks: seq<Task>, id: Id)
    requires !Awaited(tasks, id)
    ensures Awaiting(tasks, id) == 0
  {
    if tasks != [] {
      var before := tasks[..|tasks| - 1];
      assert forall k :: 0 <= k < |before| ==> before[k] == tasks[k];
      NotAwaited(before, id);
    }
  }

  /** Dropping the log of one id leaves the sums of the others. */
  lemma DroppedLimits(s: State, n: State, id: Id, x: Binding)
    requires n.log == Without(s.log, id) && n.tasks == s.tasks && n.time == s.time
    requires x.id != id && WithinLimits(x, s.log) && Room(x, s)
    ensures WithinLimits(x, n.log) && Room(x, n)
  {
    forall day ensures SpentOn(n.log, x.id, day) == SpentOn(s.log, x.id, day) {
      SpentWithout(s.log, id, x.id, day);
    }
  }

  lemma NewLimits(s: State, n: State, r: Binding)
    requires n.log == Without(s.log, r.id) && n.tasks == s.tasks && !Awaited(s.tasks, r.id)
    ensures WithinLimits(r, n.log) && Room(r, n)
  {
    NotAwaited(s.tasks, r.id);
    forall day ensures SpentOn(n.log, r.id, day) == 0 {
      SpentWithout(s.log, r.id, r.id, day);
    }
  }

  lemma RegisterKeeps(s: State, b: Binding)
    requires Kept(s) && NoneLoaded(s.tasks) && !Awaited(s.tasks, b.id) && UpsertBinding(s.store, b).Changed?
    ensures Kept(s.(store := UpsertBinding(s.store, b).store, log := Without(s.log, b.id)))
  {
    var r, n := b.(revoked := false), s.(store := UpsertBinding(s.store, b).store, log := Without(s.log, b.id));
    PutFacts(s.store, r);
    forall e | e in n.log ensures Find(n.store, e.id).Some? {
      assert Find(s.store, e.id).value in n.store;
    }
    forall k | 0 <= k < |n.tasks| && !n.tasks[k].phase.Done? ensures TaskOk(n, n.tasks[k]) {
      assert TaskOk(s, s.tasks[k]);
      if n.tasks[k].write.Charge? {
        assert Find(s.store, n.tasks[k].write.id).value in n.store;
      }
    }
    forall x | x in n.store ensures WithinLimits(x, n.log) && Room(x, n) {
      if x == r {
        NewLimits(s, n, r);
      } else {
        DroppedLimits(s, n, b.id, x);
      }
    }
  }

  lemma DeleteKeeps(s: State, id: Id)
    requires Kept(s) && NoneLoaded(s.tasks) && !Awaited(s.tasks, id) && DeleteBinding(s.store, id).Changed?
    ensures Kept(s.(store := DeleteBinding(s.store, id).store, log := Without(s.log, id)))
  {
    var n := s.(store := DeleteBinding(s.store, id).store, log := Without(s.log, id));
    FilterKeepsOnePerId(s.store, (b: Binding) => b.id != id);
    forall e | e in n.log ensures Find(n.store, e.id).Some? {
      assert Find(s.store, e.id).value in n.store;
    }
    forall k | 0 <= k < |n.tasks| && !n.tasks[k].phase.Done? ensures TaskOk(n, n.tasks[k]) {
      assert TaskOk(s, s.tasks[k]);
      if n.tasks[k].write.Charge? {
        assert Find(s.store, n.tasks[k].write.id).value in n.store;
      }
    }
    forall x | x in n.store ensures WithinLimits(x, n.log) && Room(x, n) {
      DroppedLimits(s, n, id, x);
    }
  }

  /** Only the revoked flag of one binding changes. */
  lemma RevokeKeeps(s: State, id: Id)
    requires Kept(s) && NoneLoaded(s.tasks) && Find(s.store, id).Some? && !Find(s.store, id).value.revoked
    ensures Kept(s.(store := RevokeBinding(s.store, id).store))
  {
    var was := Find(s.store, id).value;
    var r, n := was.(revoked := true), s.(store := RevokeBinding(s.store, id).store);
    PutFacts(s.store, r);
    RevokedLog(s, was);
    forall k | 0 <= k < |n.tasks| && !n.tasks[k].phase.Done? ensures TaskOk(n, n.tasks[k]) {
      assert TaskOk(s, s.tasks[k]);
      RevokedTask(s, was, s.tasks[k]);
    }
    forall x | x in n.store ensures WithinLimits(x, n.log) && Room(x, n) {
      if x == r {
        assert WithinLimits(was, s.log) && Room(was, s);
      }
    }
  }

  lemma RevokedLog(s: State, was: Binding)
    requires OnePerId(s.store) && LogOk(s) && was in s.store
    ensures LogOk(s.(store := Put(s.store, was.(revoked := true))))
  {
    var r, n := was.(revoked := true), s.(store := Put(s.store, was.(revoked := true)));
    PutFacts(s.store, r);
    forall e | e in n.log ensures Find(n.store, e.id).Some? {
      var b := Find(s.store, e.id).value;
      assert b.id == was.id || b in n.store;
    }
    forall x, e | x in n.store && e in n.log && e.id == x.id ensures Covered(x, e, n.time) {
      if x == r {
        assert Covered(was, e, s.time);
      }
    }
  }

  lemma RevokedTask(s: State, was: Binding, t: Task)
    requires OnePerId(s.store) && TaskOk(s, t) && !t.phase.Loaded? && was in s.store
    ensures TaskOk(s.(store := Put(s.store, was.(revoked := true))), t)
  {
    PutFacts(s.store, was.(revoked := true));
    if t.write.Charge? {
      var b, w := Find(s.store, t.write.id).value, t.write;
      assert b.id == was.id || b in Put(s.store, was.(revoked := true));
      assert Backed(b, w.amount, w.ask, w.admitted);
      FindUnique(s.store, b);
      FindUnique(s.store, was);
    }
  }

  /** A later clock reading takes nothing away: a new day starts with nothing spent. */
  lemma TimePasses(s: State, now: nat)
    requires Kept(s) && s.time <= now
    ensures Kept(s.(time := now))
  {
    DayMonotone(s.time, now);
    forall b, e | b in s.store && e in s.log && e.id == b.id ensures Covered(b, e, now) {
      assert Covered(b, e, s.time);
    }
    forall b | b in s.store ensures Room(b, s.(time := now)) {
      assert Room(b, s) && WithinLimits(b, s.log);
      if Day(now) != Day(s.time) {
        forall e | e in s.log && e.id == b.id ensures Day(e.now) != Day(now) {
          assert Covered(b, e, s.time);
        }
        NothingSpentOn(s.log, b.id, Day(now));
      }
    }
  }

  lemma AdmissionFacts(s: State, ask: Ask, now: nat)
    requires Admission(s.store, ask, now).Some?
    ensures var (b, amount) := Admission(s.store, ask, now).value;
            b in s.store && !b.revoked && Backed(b, amount, ask, now)
  {
    GoverningInStore(s.store, ask.origin, ask.chainId, now);
    AdmittedIff(GoverningBinding(s.store, ask.origin, ask.chainId, now).value, ask.op, ask.chainId, now);
  }

  /** The account never shows less of today than the log, as long as the clock did not go back. */
  lemma AccountCoversToday(s: State, b: Binding)
    requires Kept(s) && b in s.store
    ensures SpentOn(s.log, b.id, Day(s.time)) <= UsedOn(b, Day(s.time))
  {
    assert WithinLimits(b, s.log);
    if b.usedDay != Day(s.time) {
      forall e | e in s.log && e.id == b.id ensures Day(e.now) != Day(s.time) {
        assert Covered(b, e, s.time);
      }
      NothingSpentOn(s.log, b.id, Day(s.time));
    }
  }

  lemma AdmitKeeps(s: State, ask: Ask, now: nat)
    requires Kept(s) && Guarded(s, Admit(ask, now))
    ensures Kept(Next(s, Admit(ask, now)))
  {
    var t, n := s.(time := now), Next(s, Admit(ask, now));
    TimePasses(s, now);
    if Admission(s.store, ask, now).Some? {
      var (b, amount) := Admission(s.store, ask, now).value;
      var task := Admitted(b, amount, ask, now);
      AdmissionFacts(s, ask, now);
      FindUnique(s.store, b);
      AdmittedTask(t, b, task);
      AdmittedLimits(t, b, task);
    }
  }

  lemma AdmittedTask(t: State, b: Binding, task: Task)
    requires OnePerId(t.store) && TasksOk(t) && b in t.store && Find(t.store, b.id) == Some(b)
    requires task.write.Charge? && task.write.id == b.id && task.phase.Waiting? && task.write.admitted <= t.time
    requires Backed(b, task.write.amount, task.write.ask, task.write.admitted) && !Replacing(t.tasks, b.id)
    ensures TasksOk(t.(tasks := t.tasks + [task]))
  {
    var n := t.(tasks := t.tasks + [task]);
    forall x | x in t.store && x.id == b.id ensures x == b {
      FindUnique(t.store, x);
    }
    forall k | 0 <= k < |n.tasks| && !n.tasks[k].phase.Done? ensures TaskOk(n, n.tasks[k]) {
      if k < |t.tasks| {
        assert TaskOk(t, t.tasks[k]);
      }
    }
    forall id | Replacing(n.tasks, id) ensures !Awaited(n.tasks, id) {
      ReplacingSnoc(t.tasks, task, id);
    }
  }

  /** A waiting task replaces nothing yet, and only a charge is awaited. */
  lemma ReplacingSnoc(tasks: seq<Task>, task: Task, id: Id)
    requires task.phase.Waiting?
    ensures Replacing(tasks + [task], id) <==> Replacing(tasks, id)
    ensures Awaited(tasks + [task], id) <==> Awaited(tasks, id) || (task.write.Charge? && task.write.id == id)
  {
    var longer := tasks + [task];
    assert longer[|tasks|] == task;
    assert forall k :: 0 <= k < |tasks| ==> longer[k] == tasks[k];
  }

  lemma AdmittedLimits(t: State, b: Binding, task: Task)
    requires Kept(t) && b in t.store && task.write.Charge? && task.write.id == b.id && task.phase.Waiting?
    requires b.perDay.Some? ==> UsedOn(b, Day(t.time)) + Awaiting(t.tasks, b.id) + task.write.amount <= b.perDay.value
    ensures LimitsOk(t.(tasks := t.tasks + [task]))
  {
    var n := t.(tasks := t.tasks + [task]);
    AccountCoversToday(t, b);
    forall x | x in n.store ensures WithinLimits(x, n.log) && Room(x, n) {
      AwaitingSnoc(t.tasks, task, x.id);
      assert WithinLimits(x, t.log) && Room(x, t);
      if x.id == b.id {
        FindUnique(t.store, x);
        FindUnique(t.store, b);
      }
    }
  }

  /** A change other than a charge that arrives takes nothing. */
  lemma ArriveKeeps(s: State, w: Write)
    requires Kept(s) && !w.Charge?
    ensures Kept(s.(tasks := s.tasks + [Task(w, Waiting)]))
  {
    var n := s.(tasks := s.tasks + [Task(w, Waiting)]);
    forall k | 0 <= k < |n.tasks| && !n.tasks[k].phase.Done? ensures TaskOk(n, n.tasks[k]) {
      if k < |s.tasks| {
        assert TaskOk(s, s.tasks[k]);
      }
    }
    forall id | Replacing(n.tasks, id) ensures !Awaited(n.tasks, id) {
      ReplacingSnoc(s.tasks, Task(w, Waiting), id);
    }
    forall b | b in n.store ensures WithinLimits(b, n.log) && Room(b, n) {
      AwaitingSnoc(s.tasks, Task(w, Waiting), b.id);
      assert WithinLimits(b, s.log) && Room(b, s);
    }
  }

  /** A task that leaves the queue, or only changes its phase, takes nothing more. */
  lemma PhaseKeeps(s: State, k: nat, phase: Phase)
    requires Kept(s) && k < |s.tasks| && !s.tasks[k].phase.Done?
    requires phase == Done || (phase == Loaded(s.store) && Guarded(s, Load(k)))
    ensures Kept(s.(tasks := s.tasks[k := s.tasks[k].(phase := phase)]))
  {
    var n := s.(tasks := s.tasks[k := s.tasks[k].(phase := phase)]);
    forall m | 0 <= m < |n.tasks| && !n.tasks[m].phase.Done? ensures TaskOk(n, n.tasks[m]) {
      assert TaskOk(s, s.tasks[m]);
    }
    forall id | Replacing(n.tasks, id) ensures !Awaited(n.tasks, id) {
      AwaitedUpdate(s.tasks, k, phase, id);
    }
    forall b | b in n.store ensures WithinLimits(b, n.log) && Room(b, n) {
      AwaitingUpdate(s.tasks, k, s.tasks[k].(phase := phase), b.id);
      assert WithinLimits(b, s.log) && Room(b, s);
    }
  }

  lemma AwaitedUpdate(tasks: seq<Task>, k: nat, phase: Phase, id: Id)
    requires k < |tasks| && !tasks[k].phase.Done? && !phase.Waiting?
    ensures var n := tasks[k := tasks[k].(phase := phase)];
            && (Awaited(n, id) ==> Awaited(tasks, id))
            && (Replacing(n, id) ==> Replacing(tasks, id) || (phase.Loaded? && Replaces(tasks[k].write, id)))
  {
    var n := tasks[k := tasks[k].(phase := phase)];
    if Awaited(n, id) {
      var m :| 0 <= m < |n| && n[m].write.Charge? && n[m].write.id == id && !n[m].phase.Done?;
      assert tasks[m].write == n[m].write && !tasks[m].phase.Done?;
    }
  }

  /** Saving a registration, revocation or deletion is doing it at once, when nobody wrote since it loaded. */
  lemma ReplaceKeeps(s: State, k: nat)
    requires Kept(s) && k < |s.tasks| && s.tasks[k].phase.Loaded? && !s.tasks[k].write.Charge?
    ensures Kept(Saved(s, k, s.time))
  {
    var w, u := s.tasks[k].write, s.(tasks := s.tasks[k := Finished(s.tasks[k])]);
    assert TaskOk(s, s.tasks[k]);
    PhaseKeeps(s, k, Done);
    assert NoneLoaded(u.tasks);
    forall id | Replaces(w, id) ensures !Awaited(u.tasks, id) {
      assert Replacing(s.tasks, id);
      AwaitedUpdate(s.tasks, k, Done, id);
    }
    match w
    case Register(b) => if UpsertBinding(s.store, b).Changed? { RegisterKeeps(u, b); }
    case Revoke(id) => if Find(s.store, id).Some? && !Find(s.store, id).value.revoked { RevokeKeeps(u, id); }
    case Delete(id) => if DeleteBinding(s.store, id).Changed? { DeleteKeeps(u, id); }
  }

  lemma SaveKeeps(s: State, k: nat, now: nat)
    requires Kept(s) && s.time <= now && k < |s.tasks| && s.tasks[k].phase.Loaded?
    ensures Kept(Next(s, Save(k, now)))
  {
    var t := s.(time := now);
    TimePasses(s, now);
    assert Next(s, Save(k, now)) == Saved(t, k, now);
    if t.tasks[k].write.Charge? {
      ChargeKeeps(t, k);
    } else {
      ReplaceKeeps(t, k);
    }
  }

  lemma ChargeKeeps(t: State, k: nat)
    requires Kept(t) && k < |t.tasks| && t.tasks[k].phase.Loaded? && t.tasks[k].write.Charge?
    ensures Kept(Saved(t, k, t.time))
  {
    assert TaskOk(t, t.tasks[k]);
    var b := Find(t.store, t.tasks[k].write.id).value;
    PutFacts(t.store, Charged(b, t.tasks[k].write.amount, t.time));
    SavedLog(t, k, b);
    SavedTasks(t, k, b);
    SavedLimits(t, k, b);
  }

  lemma SavedLog(t: State, k: nat, b: Binding)
    requires Kept(t) && k < |t.tasks| && t.tasks[k].phase.Loaded? && t.tasks[k].write.Charge?
    requires TaskOk(t, t.tasks[k])
    requires Find(t.store, t.tasks[k].write.id) == Some(b)
    ensures LogOk(Saved(t, k, t.time))
  {
    var c, n := Charged(b, t.tasks[k].write.amount, t.time), Saved(t, k, t.time);
    var newest := Signed(t.tasks[k].write, t.time);
    PutFacts(t.store, c);
    forall e | e in n.log ensures Find(n.store, e.id).Some? {
      if e != newest {
        var was := Find(t.store, e.id).value;
        assert was.id == c.id || was in n.store;
      }
    }
    forall x, e | x in n.store && e in n.log && e.id == x.id ensures Covered(x, e, t.time) {
      if e in t.log {
        if x == c {
          assert Covered(b, e, t.time);
          DayMonotone(e.now, t.time);
        }
      } else {
        assert e == newest && x == c;
      }
    }
  }

  lemma SavedTasks(t: State, k: nat, b: Binding)
    requires Kept(t) && k < |t.tasks| && t.tasks[k].phase.Loaded? && t.tasks[k].write.Charge?
    requires TaskOk(t, t.tasks[k])
    requires Find(t.store, t.tasks[k].write.id) == Some(b)
    ensures TasksOk(Saved(t, k, t.time))
  {
    var c, n := Charged(b, t.tasks[k].write.amount, t.time), Saved(t, k, t.time);
    PutFacts(t.store, c);
    forall m | 0 <= m < |n.tasks| && !n.tasks[m].phase.Done? ensures TaskOk(n, n.tasks[m]) {
      assert m != k && TaskOk(t, t.tasks[m]) && !t.tasks[m].phase.Loaded?;
      if t.tasks[m].write.Charge? {
        var was, w := Find(t.store, t.tasks[m].write.id).value, t.tasks[m].write;
        assert was.id == c.id || was in n.store;
        assert Backed(was, w.amount, w.ask, w.admitted);
      }
    }
    assert NoneLoaded(n.tasks);
  }

  lemma SavedLimits(t: State, k: nat, b: Binding)
    requires Kept(t) && k < |t.tasks| && t.tasks[k].phase.Loaded? && t.tasks[k].write.Charge?
    requires TaskOk(t, t.tasks[k])
    requires Find(t.store, t.tasks[k].write.id) == Some(b)
    ensures LimitsOk(Saved(t, k, t.time))
  {
    var c, n := Charged(b, t.tasks[k].write.amount, t.time), Saved(t, k, t.time);
    PutFacts(t.store, c);
    AccountCoversToday(t, b);
    forall x | x in n.store ensures WithinLimits(x, n.log) && Room(x, n) {
      if x == c {
        ChargedLimits(t, k, b);
      } else {
        OtherLimits(t, k, x);
      }
    }
  }

  lemma ChargedLimits(t: State, k: nat, b: Binding)
    requires Kept(t) && k < |t.tasks| && t.tasks[k].phase.Loaded? && t.tasks[k].write.Charge?
    requires b in t.store && b.id == t.tasks[k].write.id
    ensures var c := Charged(b, t.tasks[k].write.amount, t.time);
            WithinLimits(c, Saved(t, k, t.time).log) && Room(c, Saved(t, k, t.time))
  {
    assert WithinLimits(b, t.log) && Room(b, t);
    AccountCoversToday(t, b);
    forall day
      ensures SpentOn(Saved(t, k, t.time).log, b.id, day) ==
              SpentOn(t.log, b.id, day) + if Day(t.time) == day then t.tasks[k].write.amount else 0
    {
      ChargedSums(t, k, t.time, b.id, day);
    }
    ChargedSums(t, k, t.time, b.id, 0);
  }

  lemma OtherLimits(t: State, k: nat, x: Binding)
    requires Kept(t) && k < |t.tasks| && t.tasks[k].phase.Loaded? && t.tasks[k].write.Charge?
    requires x in t.store && x.id != t.tasks[k].write.id
    ensures WithinLimits(x, Saved(t, k, t.time).log) && Room(x, Saved(t, k, t.time))
  {
    assert WithinLimits(x, t.log) && Room(x, t);
    forall day ensures SpentOn(Saved(t, k, t.time).log, x.id, day) == SpentOn(t.log, x.id, day) {
      ChargedSums(t, k, t.time, x.id, day);
    }
    ChargedSums(t, k, t.time, x.id, 0);
  }

  lemma NextKeeps(s: State, e: Event)
    requires Kept(s) && Guarded(s, e)
    ensures Kept(Next(s, e))
  {
    match e
    case Arrive(w) => if !w.Charge? { ArriveKeeps(s, w); }
    case Admit(ask, now) => AdmitKeeps(s, ask, now);
    case Abandon(k) => if k < |s.tasks| && s.tasks[k].phase.Waiting? { PhaseKeeps(s, k, Done); }
    case Load(k) => if k < |s.tasks| && s.tasks[k].phase.Waiting? { PhaseKeeps(s, k, Loaded(s.store)); }
    case Save(k, now) => if k < |s.tasks| && s.tasks[k].phase.Loaded? { SaveKeeps(s, k, now); }
  }

  /**
   Along every guarded run: at most sixteen bindings, and under each registration every day's total and
   every single amount is within the limits, every request was admitted inside the validity window, and
   the binding allows its origin, chain, kind and table.
   */
  lemma {:induction false} GuardedRunsWithinLimits(events: seq<Event>)
    requires GuardedRun(State([], [], [], 0), events)
    ensures Kept(RunFrom(State([], [], [], 0), events))
  {
    if events != [] {
      GuardedRunsWithinLimits(events[..|events| - 1]);
      NextKeeps(RunFrom(State([], [], [], 0), events[..|events| - 1]), events[|events| - 1]);
    }
  }

  // ----- revocation

  /** The write would put an unrevoked registration in the place of a registered binding, or none. */
  ghost predicate Reinstates(w: Write, id: Id)
  {
    (w.Register? && w.binding.id == id && WellFormed(w.binding)) || (w.Delete? && w.id == id)
  }

  ghost predicate NeverReinstated(events: seq<Event>, id: Id)
  {
    forall i :: 0 <= i < |events| && events[i].Arrive? ==> !Reinstates(events[i].write, id)
  }

  ghost predicate IsRevoked(store: Store, id: Id)
  {
    OnePerId(store) && Find(store, id).Some? && Find(store, id).value.revoked
  }

  /** The change is made on this copy, at whatever time. */
  predicate Succeeds(w: Write, snapshot: Store)
  {
    match w
    case Charge(id, _, _, _) => Find(snapshot, id).Some?
    case Register(b) => UpsertBinding(snapshot, b).Changed?
    case Revoke(id) => Find(snapshot, id).Some?
    case Delete(id) => Find(snapshot, id).Some?
  }

  /** What is under way leaves the revocation alone: it waits and is about something else, or its copy is no older. */
  ghost predicate Harmless(t: Task, id: Id)
  {
    match t.phase
    case Waiting => !Reinstates(t.write, id)
    case Loaded(snapshot) =>
      Succeeds(t.write, snapshot) ==>
        t.write == Revoke(id) || (!Reinstates(t.write, id) && IsRevoked(snapshot, id))
    case Done => true
  }

  ghost predicate AllHarmless(s: State, id: Id)
  {
    forall k :: 0 <= k < |s.tasks| ==> Harmless(s.tasks[k], id)
  }

  ghost predicate SoundCopies(s: State)
  {
    forall k :: 0 <= k < |s.tasks| && s.tasks[k].phase.Loaded? ==> OnePerId(s.tasks[k].phase.snapshot)
  }

  lemma RevokedAfterPut(store: Store, id: Id, x: Binding)
    requires OnePerId(store)
    ensures IsRevoked(Put(store, x), id) <==> if x.id == id then x.revoked else IsRevoked(store, id)
  {
    PutFacts(store, x);
    if x.id == id {
      FindUnique(Put(store, x), x);
    } else if Find(store, id).Some? {
      FindUnique(Put(store, x), Find(store, id).value);
    }
  }

  lemma RevokedAfterDelete(store: Store, id: Id, other: Id)
    requires OnePerId(store) && Find(store, other).Some?
    ensures IsRevoked(DeleteBinding(store, other).store, id) <==> other != id && IsRevoked(store, id)
  {
    var kept := DeleteBinding(store, other).store;
    FilterKeepsOnePerId(store, (x: Binding) => x.id != other);
    if other != id && Find(store, id).Some? {
      FindUnique(kept, Find(store, id).value);
    }
  }

  /** What a successful save does to a revocation depends on the write and its copy only. */
  lemma SaveRevokes(w: Write, snapshot: Store, id: Id, now: nat)
    requires OnePerId(snapshot)
    ensures Apply(w, snapshot, now).Changed? <==> Succeeds(w, snapshot)
    ensures Succeeds(w, snapshot) ==>
              (IsRevoked(Apply(w, snapshot, now).store, id) <==>
               w == Revoke(id) || (!Reinstates(w, id) && IsRevoked(snapshot, id)))
  {
    if Succeeds(w, snapshot) {
      match w
      case Charge(other, amount, _, _) =>
        RevokedAfterPut(snapshot, id, Charged(Find(snapshot, other).value, amount, now));
      case Register(b) => RevokedAfterPut(snapshot, id, b.(revoked := false));
      case Revoke(other) =>
        RevokedAfterPut(snapshot, id, Find(snapshot, other).value.(revoked := true));
      case Delete(other) => RevokedAfterDelete(snapshot, id, other);
    }
  }

  lemma RevokedStep(s: State, e: Event, id: Id)
    requires IsRevoked(s.store, id) && AllHarmless(s, id) && SoundCopies(s)
    requires e.Arrive? ==> !Reinstates(e.write, id)
    ensures IsRevoked(Next(s, e).store, id) && AllHarmless(Next(s, e), id) && SoundCopies(Next(s, e))
  {
    if e.Save? && e.k < |s.tasks| && s.tasks[e.k].phase.Loaded? {
      assert Harmless(s.tasks[e.k], id);
      SaveRevokes(s.tasks[e.k].write, s.tasks[e.k].phase.snapshot, id, e.now);
    } else if e.Load? && e.k < |s.tasks| {
      assert Harmless(s.tasks[e.k], id);
    }
  }

  lemma {:induction false} RevokedRun(s: State, events: seq<Event>, id: Id)
    requires IsRevoked(s.store, id) && AllHarmless(s, id) && SoundCopies(s) && NeverReinstated(events, id)
    ensures var t := RunFrom(s, events); IsRevoked(t.store, id) && AllHarmless(t, id) && SoundCopies(t)
  {
    if events != [] {
      RevokedRun(s, events[..|events| - 1], id);
      RevokedStep(RunFrom(s, events[..|events| - 1]), events[|events| - 1], id);
    }
  }

  /** One handler that is not harmless undoes the revocation, whatever it was about. */
  lemma HarmfulUndoes(s: State, k: nat, id: Id) returns (events: seq<Event>)
    requires IsRevoked(s.store, id) && SoundCopies(s) && k < |s.tasks| && !Harmless(s.tasks[k], id)
    ensures NeverReinstated(events, id) && !IsRevoked(RunFrom(s, events).store, id)
  {
    var t := s.tasks[k];
    if t.phase.Loaded? {
      SaveRevokes(t.write, t.phase.snapshot, id, s.time);
      events := [Save(k, s.time)];
      RunSnoc(s, [], Save(k, s.time));
      assert [] + [Save(k, s.time)] == events;
    } else {
      SaveRevokes(t.write, s.store, id, s.time);
      events := [Load(k), Save(k, s.time)];
      RunSnoc(s, [], Load(k));
      RunSnoc(s, [] + [Load(k)], Save(k, s.time));
      assert [] + [Load(k)] + [Save(k, s.time)] == events;
    }
  }

  /** In every run, guarded or not, the registry and every copy of it hold one binding per id. */
  lemma {:induction false} EveryRunSound(s: State, events: seq<Event>)
    requires OnePerId(s.store) && SoundCopies(s)
    ensures OnePerId(RunFrom(s, events).store) && SoundCopies(RunFrom(s, events))
  {
    if events != [] {
      var before, last := RunFrom(s, events[..|events| - 1]), events[|events| - 1];
      EveryRunSound(s, events[..|events| - 1]);
      if last.Save? && last.k < |before.tasks| && before.tasks[last.k].phase.Loaded? {
        ApplySound(before.tasks[last.k].write, before.tasks[last.k].phase.snapshot, last.now);
      }
    }
  }

  lemma ApplySound(w: Write, store: Store, now: nat)
    requires OnePerId(store)
    ensures OnePerId(StoreAfter(Apply(w, store, now), store))
  {
    if Apply(w, store, now).Changed? {
      match w
      case Charge(id, amount, _, _) => PutFacts(store, Charged(Find(store, id).value, amount, now));
      case Register(b) => PutFacts(store, b.(revoked := false));
      case Revoke(id) => PutFacts(store, Find(store, id).value.(revoked := true));
      case Delete(id) => FilterKeepsOnePerId(store, (b: Binding) => b.id != id);
    }
  }

  /**
   A revoked binding stays revoked until a new registration or deletion of its id arrives, whatever else
   arrives and in whatever order handlers load and save, exactly when everything under way is harmless: no
   handler of any kind is going to replace the binding, or to write back a copy in which it is not revoked.
   */
  lemma RevocationSticksIff(s: State, id: Id)
    requires SoundCopies(s)
    ensures (forall events | NeverReinstated(events, id) :: IsRevoked(RunFrom(s, events).store, id)) <==>
            IsRevoked(s.store, id) && AllHarmless(s, id)
  {
    if IsRevoked(s.store, id) && AllHarmless(s, id) {
      forall events | NeverReinstated(events, id) ensures IsRevoked(RunFrom(s, events).store, id) {
        RevokedRun(s, events, id);
      }
    } else if !IsRevoked(s.store, id) {
      var events: seq<Event> := [];
      assert NeverReinstated(events, id) && RunFrom(s, events) == s;
    } else {
      var k :| 0 <= k < |s.tasks| && !Harmless(s.tasks[k], id);
      var events := HarmfulUndoes(s, k, id);
    }
  }

  /**
   Registering or deleting one binding can undo the revocation of another: it loads, the revocation loads
   and saves, and then it saves its older copy.
   */
  lemma OtherWriterUndoes(store: Store, w: Write, id: Id, log: seq<Spend>, time: nat)
    requires OnePerId(store) && Find(store, id).Some? && !Find(store, id).value.revoked
    requires (w.Register? && w.binding.id != id) || (w.Delete? && w.id != id)
    requires Succeeds(w, store)
    ensures var s := State(store, [Task(w, Waiting), Task(Revoke(id), Waiting)], log, time);
            && IsRevoked(RunFrom(s, [Load(0), Load(1), Save(1, time)]).store, id)
            && !IsRevoked(RunFrom(s, [Load(0), Load(1), Save(1, time), Save(0, time)]).store, id)
  {
    var s := State(store, [Task(w, Waiting), Task(Revoke(id), Waiting)], log, time);
    RunThree(s, Load(0), Load(1), Save(1, time));
    RunSnoc(s, [Load(0), Load(1), Save(1, time)], Save(0, time));
    assert [Load(0), Load(1), Save(1, time)] + [Save(0, time)] == [Load(0), Load(1), Save(1, time), Save(0, time)];
    SaveRevokes(Revoke(id), store, id, time);
    SaveRevokes(w, store, id, time);
    BothLoaded(s, w, Revoke(id));
  }

  lemma BothLoaded(s: State, a: Write, b: Write)
    requires s.tasks == [Task(a, Waiting), Task(b, Waiting)]
    ensures Next(Next(s, Load(0)), Load(1)) ==
            s.(tasks := [Task(a, Loaded(s.store)), Task(b, Loaded(s.store))])
  {
  }

  lemma RunThree(s: State, a: Event, b: Event, c: Event)
    ensures RunFrom(s, [a, b, c]) == Next(Next(Next(s, a), b), c)
  {
    RunSnoc(s, [], a);
    RunSnoc(s, [] + [a], b);
    RunSnoc(s, [] + [a] + [b], c);
    assert [] + [a] + [b] + [c] == [a, b, c];
  }

  lemma RevokedStepSpends(s: State, e: Event, id: Id, day: nat)
    requires IsRevoked(s.store, id)
    ensures var n := Next(s, e);
            SpentOn(n.log, id, day) + Awaiting(n.tasks, id) <= SpentOn(s.log, id, day) + Awaiting(s.tasks, id)
  {
    match e
    case Arrive(w) => AwaitingSnoc(s.tasks, Task(w, Waiting), id);
    case Admit(ask, now) =>
      if Admission(s.store, ask, now).Some? {
        AdmissionFacts(s, ask, now);
        var (b, amount) := Admission(s.store, ask, now).value;
        FindUnique(s.store, b);
        AwaitingSnoc(s.tasks, Admitted(b, amount, ask, now), id);
      }
    case Abandon(k) =>
      if k < |s.tasks| { AwaitingUpdate(s.tasks, k, Finished(s.tasks[k]), id); }
    case Load(k) =>
      if k < |s.tasks| { AwaitingUpdate(s.tasks, k, s.tasks[k].(phase := Loaded(s.store)), id); }
    case Save(k, now) =>
      if k < |s.tasks| && s.tasks[k].phase.Loaded? { SavedSums(s, k, now, id, day); }
  }

  /** While it is revoked a binding spends nothing but what was under way when it was revoked. */
  lemma {:induction false} RevokedSpendsOnlyAwaiting(s: State, events: seq<Event>, id: Id, day: nat)
    requires IsRevoked(s.store, id) && AllHarmless(s, id) && SoundCopies(s) && NeverReinstated(events, id)
    ensures SpentOn(RunFrom(s, events).log, id, day) <= SpentOn(s.log, id, day) + Awaiting(s.tasks, id)
    ensures var t := RunFrom(s, events);
            SpentOn(t.log, id, day) + Awaiting(t.tasks, id) <= SpentOn(s.log, id, day) + Awaiting(s.tasks, id)
  {
    if events != [] {
      var shorter := events[..|events| - 1];
      RevokedSpendsOnlyAwaiting(s, shorter, id, day);
      RevokedRun(s, shorter, id);
      RevokedStepSpends(RunFrom(s, shorter), events[|events| - 1], id, day);
    }
  }

  /** Recording asks for nothing but the binding's presence: neither its window nor its revocation matters any more. */
  lemma RecordingAsksPresenceOnly(store: Store, id: Id, amount: nat, now: nat)
    requires OnePerId(store)
    ensures RecordSpend(store, id, amount, now).Changed? <==> exists b :: b in store && b.id == id
    ensures RecordSpend(store, id, amount, now).Changed? ==>
              forall b :: b in store && b.id == id ==>
                  Charged(b, amount, now) in RecordSpend(store, id, amount, now).store
  {
    forall b | b in store && b.id == id ensures Find(store, id) == Some(b) {
      FindUnique(store, b);
    }
  }

  /** While the newest binding of an origin is revoked, nothing of the origin is admitted, at any time. */
  lemma RevokedNewestBlocksOrigin(s: State, b: Binding, op: Operation, now: nat)
    requires b in s.store && b.revoked
    requires forall x :: x in s.store && x != b && x.origin == b.origin && x.chainId == b.chainId ==>
               x.registeredAt < b.registeredAt
    ensures GoverningBinding(s.store, b.origin, b.chainId, now) == Some(b)
    ensures AdmitOperation(b, op, b.chainId, now).Refused?
    ensures Next(s, Admit(Ask(b.origin, op, b.chainId), now)) == s.(time := now)
  {
    GoverningIsNewestEnforcing(s.store, b.origin, b.chainId, now);
    assert Enforcing(b, b.origin, b.chainId, now);
  }
}
