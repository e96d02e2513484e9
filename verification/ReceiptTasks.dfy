/**
 Receipts under overlapping messages. A confirmation is checked, waits for its signature, loads the
 stored receipts and writes back the changed copy; other messages may run between any two of these steps.
 */
module ReceiptTasks {
  import opened Seqs
  import opened Receipts

  datatype Phase = Waiting | Loaded(snapshot: Store) | Done

  datatype Task = Task(write: Write, phase: Phase)

  datatype State = State(store: Store, tasks: seq<Task>)

  datatype Event =
    | Confirm(inputs: seq<Commitment>, gate: bool, digest: Digest, amounts: map<Commitment, nat>, now: nat)
    | Arrive(write: Write)
    | Abandon(k: nat)
    | Load(k: nat)
    | Save(k: nat)

  /** A confirmation's task starts when its checks pass; only confirmations carry inputs. */
  function Next(s: State, e: Event): State
  {
    match e
    case Confirm(inputs, gate, digest, amounts, now) =>
      if FirstTaken(AddAll([], LockedInputs(s.store)), inputs) < |inputs| || !gate then s
      else s.(tasks := s.tasks + [Task(Open(digest, "transfer", Recorded(inputs, amounts), now), Waiting)])
    case Arrive(write) =>
      if write.Open? && write.inputs != [] then s else s.(tasks := s.tasks + [Task(write, Waiting)])
    case Abandon(k) =>
      if k < |s.tasks| && s.tasks[k].phase.Waiting? then s.(tasks := s.tasks[k := s.tasks[k].(phase := Done)]) else s
    case Load(k) =>
      if k < |s.tasks| && s.tasks[k].phase.Waiting?
      then s.(tasks := s.tasks[k := s.tasks[k].(phase := Loaded(s.store))])
      else s
    case Save(k) =>
      if k < |s.tasks| && s.tasks[k].phase.Loaded?
      then State(StoreAfter(Apply(s.tasks[k].write, s.tasks[k].phase.snapshot), s.store),
                 s.tasks[k := s.tasks[k].(phase := Done)])
      else s
  }

  ghost function RunFrom(s: State, events: seq<Event>): State
  {
    if events == [] then s else Next(RunFrom(s, events[..|events| - 1]), events[|events| - 1])
  }

  ghost predicate Share(a: seq<Input>, b: seq<Input>)
  {
    exists c :: Mentions(a, c) && Mentions(b, c)
  }

  // ----- runs with the two missing guards

  ghost predicate Wants(t: Task, inputs: seq<Commitment>)
  {
    !t.phase.Done? && exists m :: 0 <= m < |inputs| && Mentions(Claimed(t.write), inputs[m])
  }

  /** The check also refuses notes of confirmations under way, and one handler at a time is between load and save. */
  ghost predicate Guarded(s: State, e: Event)
  {
    match e
    case Confirm(inputs, _, _, _, _) => forall k :: 0 <= k < |s.tasks| ==> !Wants(s.tasks[k], inputs)
    case Load(_) => forall k :: 0 <= k < |s.tasks| ==> !s.tasks[k].phase.Loaded?
    case _ => true
  }

  ghost predicate GuardedRun(s: State, events: seq<Event>)
  {
    events == [] ||
    (GuardedRun(s, events[..|events| - 1]) && Guarded(RunFrom(s, events[..|events| - 1]), events[|events| - 1]))
  }

  ghost predicate Apart(tasks: seq<Task>)
  {
    forall i, j | 0 <= i < j < |tasks| && !tasks[i].phase.Done? && !tasks[j].phase.Done? ::
      !Share(Claimed(tasks[i].write), Claimed(tasks[j].write))
  }

  ghost predicate OneLoaded(s: State)
  {
    && (forall k :: 0 <= k < |s.tasks| && s.tasks[k].phase.Loaded? ==> s.tasks[k].phase.snapshot == s.store)
    && (forall i, j :: 0 <= i < j < |s.tasks| && s.tasks[i].phase.Loaded? ==> !s.tasks[j].phase.Loaded?)
  }

  ghost predicate NoneLocked(s: State)
  {
    forall k :: 0 <= k < |s.tasks| && !s.tasks[k].phase.Done? ==> NotLocked(s.store, Claimed(s.tasks[k].write))
  }

  ghost predicate Inv(s: State)
  {
    Kept(s.store) && Apart(s.tasks) && OneLoaded(s) && NoneLocked(s)
  }

  lemma ConfirmedClaims(inputs: seq<Commitment>, amounts: map<Commitment, nat>, c: Commitment)
    requires Mentions(Normalized(Recorded(inputs, amounts)), c)
    ensures c != "" && c in inputs
  {
    var recorded := Recorded(inputs, amounts);
    NormalizedMentions(recorded, c);
    var k :| 0 <= k < |recorded| && recorded[k].commitment == c;
    assert inputs[k] == c;
  }

  lemma ConfirmKeeps(s: State, e: Event)
    requires Inv(s) && e.Confirm? && Guarded(s, e)
    ensures Inv(Next(s, e))
  {
    TakenIsConflict(s.store, e.inputs);
    if !Conflicts(s.store, e.inputs) && e.gate {
      var write := Open(e.digest, "transfer", Recorded(e.inputs, e.amounts), e.now);
      ConfirmedApart(s, e.inputs, e.amounts);
      AddedKeeps(s, Task(write, Waiting));
    }
  }

  lemma ConfirmedApart(s: State, inputs: seq<Commitment>, amounts: map<Commitment, nat>)
    requires !Conflicts(s.store, inputs) && forall k :: 0 <= k < |s.tasks| ==> !Wants(s.tasks[k], inputs)
    ensures NotLocked(s.store, Normalized(Recorded(inputs, amounts)))
    ensures forall k :: 0 <= k < |s.tasks| && !s.tasks[k].phase.Done? ==>
              !Share(Claimed(s.tasks[k].write), Normalized(Recorded(inputs, amounts)))
  {
    var claimed := Normalized(Recorded(inputs, amounts));
    forall c | Mentions(claimed, c) ensures !Mentions(LockedInputs(s.store), c) {
      ConfirmedClaims(inputs, amounts, c);
      var m :| 0 <= m < |inputs| && inputs[m] == c;
    }
    forall k, c | 0 <= k < |s.tasks| && !s.tasks[k].phase.Done? && Mentions(claimed, c)
      ensures !Mentions(Claimed(s.tasks[k].write), c)
    {
      ConfirmedClaims(inputs, amounts, c);
      var m :| 0 <= m < |inputs| && inputs[m] == c;
      assert !Wants(s.tasks[k], inputs);
    }
  }

  lemma SaveKeeps(s: State, k: nat)
    requires Inv(s) && k < |s.tasks| && s.tasks[k].phase.Loaded?
    ensures Inv(Next(s, Save(k)))
  {
    var w, n := s.tasks[k].write, Next(s, Save(k));
    ApplyKeeps(s.store, w);
    forall j | 0 <= j < |n.tasks| && !n.tasks[j].phase.Done? ensures NotLocked(n.store, Claimed(n.tasks[j].write)) {
      assert j != k && n.tasks[j] == s.tasks[j];
      forall c | Mentions(Claimed(n.tasks[j].write), c) ensures !Mentions(LockedInputs(n.store), c) {
        ClaimedOnce(s.tasks, j, k, c);
        if Mentions(LockedInputs(n.store), c) {
          LocksOnlyClaimed(s.store, w, c);
        }
      }
    }
  }

  lemma ClaimedOnce(tasks: seq<Task>, j: nat, k: nat, c: Commitment)
    requires Apart(tasks) && j < |tasks| && k < |tasks| && j != k
    requires !tasks[j].phase.Done? && !tasks[k].phase.Done? && Mentions(Claimed(tasks[j].write), c)
    ensures !Mentions(Claimed(tasks[k].write), c)
  {
    if j < k {
      assert !Share(Claimed(tasks[j].write), Claimed(tasks[k].write));
    } else {
      assert !Share(Claimed(tasks[k].write), Claimed(tasks[j].write));
    }
  }

  lemma ArriveKeeps(s: State, write: Write)
    requires Inv(s)
    ensures Inv(Next(s, Arrive(write)))
  {
    if !(write.Open? && write.inputs != []) {
      assert Claimed(write) == [];
      AddedKeeps(s, Task(write, Waiting));
    }
  }

  lemma AddedKeeps(s: State, t: Task)
    requires Inv(s) && t.phase.Waiting? && NotLocked(s.store, Claimed(t.write))
    requires forall k :: 0 <= k < |s.tasks| && !s.tasks[k].phase.Done? ==>
               !Share(Claimed(s.tasks[k].write), Claimed(t.write))
    ensures Inv(s.(tasks := s.tasks + [t]))
  {
    AddedKeepsLoaded(s, t);
  }

  lemma AddedKeepsLoaded(s: State, t: Task)
    requires OneLoaded(s) && t.phase.Waiting?
    ensures OneLoaded(s.(tasks := s.tasks + [t]))
  {
  }

  lemma AbandonKeeps(s: State, k: nat)
    requires Inv(s)
    ensures Inv(Next(s, Abandon(k)))
  {
    PhaseKeepsApart(s, Next(s, Abandon(k)));
  }

  lemma LoadKeeps(s: State, k: nat)
    requires Inv(s) && Guarded(s, Load(k))
    ensures Inv(Next(s, Load(k)))
  {
    PhaseKeepsApart(s, Next(s, Load(k)));
  }

  lemma PhaseKeepsApart(s: State, n: State)
    requires Apart(s.tasks) && NoneLocked(s) && n.store == s.store && |n.tasks| == |s.tasks|
    requires forall k :: 0 <= k < |s.tasks| ==>
               n.tasks[k].write == s.tasks[k].write && (s.tasks[k].phase.Done? ==> n.tasks[k].phase.Done?)
    ensures Apart(n.tasks) && NoneLocked(n)
  {
  }

  lemma NextKeeps(s: State, e: Event)
    requires Inv(s) && Guarded(s, e)
    ensures Inv(Next(s, e))
  {
    match e
    case Confirm(_, _, _, _, _) => ConfirmKeeps(s, e);
    case Arrive(write) => ArriveKeeps(s, write);
    case Abandon(k) => AbandonKeeps(s, k);
    case Load(k) => LoadKeeps(s, k);
    case Save(k) => if k < |s.tasks| && s.tasks[k].phase.Loaded? { SaveKeeps(s, k); }
  }

  /**
   With both guards, in every run the store holds at most twenty receipts and no note is in two
   transfers in flight.
   */
  lemma {:induction false} GuardedRunsDisjoint(events: seq<Event>)
    requires GuardedRun(State([], []), events)
    ensures Inv(RunFrom(State([], []), events))
  {
    if events != [] {
      GuardedRunsDisjoint(events[..|events| - 1]);
      NextKeeps(RunFrom(State([], []), events[..|events| - 1]), events[|events| - 1]);
    }
  }

  // ----- without the guards: confirmations under way

  /**
   Confirmations that have passed the check at some time and not yet loaded the store. Others may have been
   recorded since, so their notes need not be free any more.
   */
  ghost predicate Ready(s: State)
  {
    && Kept(s.store)
    && forall k :: 0 <= k < |s.tasks| ==> Checked(s.store, s.tasks[k])
  }

  ghost predicate Checked(store: Store, t: Task)
  {
    && t.phase.Waiting? && t.write.Open? && t.write.kind == "transfer"
    && ValidDigest(t.write.digest) && Position(store, t.write.digest) == |store|
    && forall r :: r in store ==> r.openedAt <= t.write.now
  }

  /** Nothing happens but that the confirmations load and save, in any interleaving. */
  ghost predicate Finishing(events: seq<Event>)
  {
    forall i :: 0 <= i < |events| ==> events[i].Load? || events[i].Save?
  }

  function Made(w: Write): Receipt
    requires w.Open?
  {
    Receipt(w.digest, w.kind, Normalized(w.inputs), Signed, w.now)
  }

  /** Different confirmations under way share no note; asking twice for the same operation is no difference. */
  ghost predicate NoOverlap(tasks: seq<Task>)
  {
    forall i, j | 0 <= i < |tasks| && 0 <= j < |tasks| && tasks[i].write.digest != tasks[j].write.digest ::
      !Share(Claimed(tasks[i].write), Claimed(tasks[j].write))
  }

  /** What the next recorded confirmation leaves of the store. */
  function Remaining(store: Store): Store
  {
    if |store| < MAX_RECEIPTS then store else RemoveAt(store, Oldest(store))
  }

  lemma RemainingMember(store: Store, r: Receipt)
    requires OnePerDigest(store)
    ensures r in Remaining(store) <==> r in store && (|store| < MAX_RECEIPTS || r != store[Oldest(store)])
  {
    if |store| >= MAX_RECEIPTS {
      RemoveAtFacts(store, Oldest(store));
    }
  }

  /** No confirmation under way asks for a note that stays locked when it is recorded. */
  ghost predicate NoneTaken(s: State)
  {
    forall k :: 0 <= k < |s.tasks| ==> NotLocked(Remaining(s.store), Claimed(s.tasks[k].write))
  }

  /** The store as it was, or what remained of it and receipts of the confirmations. */
  ghost predicate Sourced(s: State, store: Store)
    requires Ready(s)
  {
    && OnePerDigest(store) && |store| <= MAX_RECEIPTS
    && (store == s.store ||
        forall r :: r in store ==>
          r in Remaining(s.store) || exists k :: 0 <= k < |s.tasks| && r == Made(s.tasks[k].write))
  }

  ghost predicate Progressed(s: State, t: State)
    requires Ready(s)
  {
    && |t.tasks| == |s.tasks| && Sourced(s, t.store)
    && forall k :: 0 <= k < |s.tasks| ==>
         t.tasks[k].write == s.tasks[k].write && (t.tasks[k].phase.Loaded? ==> Sourced(s, t.tasks[k].phase.snapshot))
  }

  lemma SaveSourced(s: State, snapshot: Store, k: nat)
    requires Ready(s) && k < |s.tasks| && Sourced(s, snapshot)
    ensures Apply(s.tasks[k].write, snapshot).Changed? ==> Sourced(s, Apply(s.tasks[k].write, snapshot).store)
  {
    var w := s.tasks[k].write;
    assert Checked(s.store, s.tasks[k]);
    if Apply(w, snapshot).Changed? {
      var longer := snapshot + [Made(w)];
      assert OnePerDigest(longer);
      CapDropsOldest(longer);
      forall r | r in Capped(longer) ensures r in Remaining(s.store) || r in snapshot || r == Made(w) {
      }
      if snapshot == s.store {
        RecordedLeaves(s.store, w);
      }
    }
  }

  /** Recording keeps exactly what remains of the store and adds the new receipt. */
  lemma RecordedLeaves(store: Store, w: Write)
    requires Kept(store) && w.Open? && Apply(w, store).Changed? && forall r :: r in store ==> r.openedAt <= w.now
    ensures forall r :: r in Apply(w, store).store <==> r in Remaining(store) || r == Made(w)
  {
    assert OnePerDigest(store + [Made(w)]);
    if |store| == MAX_RECEIPTS {
      FullStoreDropsOldest(store, Made(w));
      var i := Oldest(store);
      assert Position(store, w.digest) == |store|;
      assert store[i].digest != w.digest;
    }
    forall r ensures r in Remaining(store) <==> r in store && (|store| < MAX_RECEIPTS || r != store[Oldest(store)]) {
      RemainingMember(store, r);
    }
  }

  lemma {:induction false} FinishingSourced(s: State, events: seq<Event>)
    requires Ready(s) && Finishing(events)
    ensures Progressed(s, RunFrom(s, events))
  {
    if events != [] {
      var before, last := RunFrom(s, events[..|events| - 1]), events[|events| - 1];
      FinishingSourced(s, events[..|events| - 1]);
      if last.Save? && last.k < |before.tasks| && before.tasks[last.k].phase.Loaded? {
        SaveSourced(s, before.tasks[last.k].phase.snapshot, last.k);
      }
    }
  }

  lemma SourcedDisjoint(s: State, store: Store)
    requires Ready(s) && NoOverlap(s.tasks) && NoneTaken(s) && Sourced(s, store)
    ensures Disjoint(store)
  {
    if store != s.store {
      forall a, b | a in store && b in store && a != b ensures DisjointPair(a, b) {
        SourcedPair(s, store, a, b);
      }
      DisjointByPairs(store);
    }
  }

  lemma SourcedPair(s: State, store: Store, a: Receipt, b: Receipt)
    requires Ready(s) && NoOverlap(s.tasks) && NoneTaken(s) && Sourced(s, store) && store != s.store
    requires a in store && b in store && a != b
    ensures DisjointPair(a, b)
  {
    DisjointByPairs(s.store);
    RemainingMember(s.store, a);
    RemainingMember(s.store, b);
    if a.digest == b.digest {
      SameDigestSame(store, a, b);
    }
    if a in Remaining(s.store) {
      if b !in Remaining(s.store) {
        var k :| 0 <= k < |s.tasks| && b == Made(s.tasks[k].write);
        OldAndNewApart(s, a, k);
      }
    } else {
      var k :| 0 <= k < |s.tasks| && a == Made(s.tasks[k].write);
      if b in Remaining(s.store) {
        OldAndNewApart(s, b, k);
      } else {
        var m :| 0 <= m < |s.tasks| && b == Made(s.tasks[m].write);
        assert Checked(s.store, s.tasks[k]) && Checked(s.store, s.tasks[m]);
        assert !Share(Claimed(s.tasks[k].write), Claimed(s.tasks[m].write));
      }
    }
  }

  lemma OldAndNewApart(s: State, earlier: Receipt, k: nat)
    requires Ready(s) && NoneTaken(s) && earlier in Remaining(s.store) && k < |s.tasks|
    ensures DisjointPair(earlier, Made(s.tasks[k].write)) && DisjointPair(Made(s.tasks[k].write), earlier)
  {
    assert Checked(s.store, s.tasks[k]);
    var store := Remaining(s.store);
    var i :| 0 <= i < |store| && store[i] == earlier;
    forall c | InFlight(earlier) && Mentions(earlier.inputs, c) ensures !Mentions(Claimed(s.tasks[k].write), c) {
      LockedIff(store, c);
    }
  }

  // ----- a schedule that breaks the lock

  function InTurn(a: nat, b: nat): seq<Event>
  {
    [Load(a), Save(a), Load(b), Save(b)]
  }

  lemma RunSnoc(s: State, events: seq<Event>, e: Event)
    ensures RunFrom(s, events + [e]) == Next(RunFrom(s, events), e)
  {
    assert (events + [e])[..|events|] == events;
  }

  lemma RunTwo(s: State, a: Event, b: Event)
    ensures RunFrom(s, [a, b]) == Next(Next(s, a), b)
  {
    RunSnoc(s, [], a);
    RunSnoc(s, [] + [a], b);
    assert [] + [a] + [b] == [a, b];
  }

  lemma RunFour(s: State, a: Event, b: Event, c: Event, d: Event)
    ensures RunFrom(s, [a, b, c, d]) == Next(Next(Next(Next(s, a), b), c), d)
  {
    RunSnoc(s, [], a);
    RunSnoc(s, [] + [a], b);
    RunSnoc(s, [] + [a] + [b], c);
    RunSnoc(s, [] + [a] + [b] + [c], d);
    assert [] + [a] + [b] + [c] + [d] == [a, b, c, d];
  }

  /** A confirmation that finishes without interruption puts its receipt at the end of the store. */
  lemma FinishOne(s: State, k: nat)
    requires k < |s.tasks| && s.tasks[k].phase.Waiting?
    ensures Next(Next(s, Load(k)), Save(k)) ==
            State(StoreAfter(Apply(s.tasks[k].write, s.store), s.store), s.tasks[k := s.tasks[k].(phase := Done)])
  {
  }

  lemma OpenedLast(store: Store, w: Write)
    requires Kept(store) && w.Open? && Apply(w, store).Changed?
    requires forall r :: r in store ==> r.openedAt <= w.now
    ensures var after := Apply(w, store).store;
            && after != [] && after[|after| - 1] == Made(w) && OnePerDigest(after)
            && (forall r :: r in after ==> r in store || r == Made(w))
            && (forall r :: r in after ==> r.openedAt <= w.now)
            && |after| == if |store| < MAX_RECEIPTS then |store| + 1 else MAX_RECEIPTS
  {
    var longer := store + [Made(w)];
    assert OnePerDigest(longer);
    CapDropsOldest(longer);
    LastStays(store, Made(w));
  }

  lemma LastStays(store: Store, newest: Receipt)
    requires |store| <= MAX_RECEIPTS && forall r :: r in store ==> r.openedAt <= newest.openedAt
    ensures Capped(store + [newest]) != []
    ensures Capped(store + [newest])[|Capped(store + [newest])| - 1] == newest
  {
    if |store| == MAX_RECEIPTS {
      OldestOfLonger(store, newest);
      CappedOnce(store + [newest]);
    }
  }

  /** The newest receipt survives the next opening. */
  lemma LastSurvives(store: Store, w: Write, last: Receipt)
    requires OnePerDigest(store) && |store| <= MAX_RECEIPTS && store != [] && store[|store| - 1] == last
    requires w.Open? && Apply(w, store).Changed? && last.openedAt <= w.now
    requires forall r :: r in store ==> r.openedAt <= last.openedAt
    ensures last in Apply(w, store).store && Made(w) in Apply(w, store).store
  {
    var longer := store + [Made(w)];
    assert last in store && Made(w) in longer && last in longer;
    assert OnePerDigest(longer);
    if |store| == MAX_RECEIPTS {
      FullStoreDropsOldest(store, Made(w));
      var i := Oldest(store);
      assert store[0] in store;
      assert store[i].digest != last.digest;
      assert Position(store, w.digest) == |store|;
      assert store[i].digest != w.digest;
    }
  }

  lemma SharedIsNotDisjoint(store: Store, a: Write, b: Write)
    requires OnePerDigest(store) && a.Open? && b.Open? && a.kind == "transfer" && b.kind == "transfer"
    requires Made(a) in store && Made(b) in store && a.digest != b.digest && Share(Claimed(a), Claimed(b))
    ensures !Disjoint(store)
  {
    DisjointByPairs(store);
    assert !DisjointPair(Made(a), Made(b));
  }

  lemma OverlapBreaks(s: State, a: nat, b: nat)
    requires Ready(s) && a < |s.tasks| && b < |s.tasks|
    requires s.tasks[a].write.digest != s.tasks[b].write.digest
    requires s.tasks[a].write.now <= s.tasks[b].write.now
    requires Share(Claimed(s.tasks[a].write), Claimed(s.tasks[b].write))
    ensures !Disjoint(RunFrom(s, InTurn(a, b)).store)
  {
    assert Checked(s.store, s.tasks[a]) && Checked(s.store, s.tasks[b]);
    InTurnStores(s, a, b);
    BothRecorded(s.store, s.tasks[a].write, s.tasks[b].write);
  }

  lemma InTurnStores(s: State, a: nat, b: nat)
    requires a < |s.tasks| && b < |s.tasks| && a != b && s.tasks[a].phase.Waiting? && s.tasks[b].phase.Waiting?
    ensures var one := StoreAfter(Apply(s.tasks[a].write, s.store), s.store);
            RunFrom(s, InTurn(a, b)).store == StoreAfter(Apply(s.tasks[b].write, one), one)
  {
    RunFour(s, Load(a), Save(a), Load(b), Save(b));
    FinishOne(s, a);
    FinishOne(Next(Next(s, Load(a)), Save(a)), b);
  }

  lemma BothRecorded(store: Store, wa: Write, wb: Write)
    requires Kept(store) && Checked(store, Task(wa, Waiting)) && Checked(store, Task(wb, Waiting))
    requires wa.digest != wb.digest && wa.now <= wb.now && Share(Claimed(wa), Claimed(wb))
    ensures var one := StoreAfter(Apply(wa, store), store);
            !Disjoint(StoreAfter(Apply(wb, one), one))
  {
    OpenedLast(store, wa);
    var one := Apply(wa, store).store;
    NotAmong(one, store, Made(wa), wb.digest);
    LastSurvives(one, wb, Made(wa));
    OpenKeepsDigests(one, wb);
    SharedIsNotDisjoint(Apply(wb, one).store, wa, wb);
  }

  lemma OpenKeepsDigests(store: Store, w: Write)
    requires OnePerDigest(store) && w.Open? && Apply(w, store).Changed?
    ensures OnePerDigest(Apply(w, store).store)
  {
    assert OnePerDigest(store + [Made(w)]);
    CapDropsOldest(store + [Made(w)]);
  }

  lemma NotAmong(after: Store, store: Store, newest: Receipt, digest: Digest)
    requires Position(store, digest) == |store| && newest.digest != digest
    requires forall r :: r in after ==> r in store || r == newest
    ensures Position(after, digest) == |after|
  {
    forall r | r in after ensures r.digest != digest {
      if r in store {
        var k :| 0 <= k < |store| && store[k] == r;
      }
    }
    assert forall i :: 0 <= i < |after| ==> after[i] in after;
  }

  /** Two overlapping confirmations, in the order of their clock readings. */
  lemma Overlapping(s: State) returns (a: nat, b: nat)
    requires Ready(s) && !NoOverlap(s.tasks)
    ensures a < |s.tasks| && b < |s.tasks| && s.tasks[a].write.digest != s.tasks[b].write.digest
    ensures s.tasks[a].write.Open? && s.tasks[b].write.Open? && s.tasks[a].write.now <= s.tasks[b].write.now
    ensures Share(Claimed(s.tasks[a].write), Claimed(s.tasks[b].write))
  {
    a, b :| 0 <= a < |s.tasks| && 0 <= b < |s.tasks| && s.tasks[a].write.digest != s.tasks[b].write.digest &&
            Share(Claimed(s.tasks[a].write), Claimed(s.tasks[b].write));
    assert Checked(s.store, s.tasks[a]) && Checked(s.store, s.tasks[b]);
    if s.tasks[a].write.now > s.tasks[b].write.now {
      a, b := b, a;
    }
  }

  /** A confirmation for a note that stays locked puts it into a second transfer by itself. */
  lemma TakenBreaks(s: State, k: nat)
    requires Ready(s) && k < |s.tasks| && !NotLocked(Remaining(s.store), Claimed(s.tasks[k].write))
    ensures !Disjoint(RunFrom(s, [Load(k), Save(k)]).store)
  {
    assert Checked(s.store, s.tasks[k]);
    var w := s.tasks[k].write;
    RunTwo(s, Load(k), Save(k));
    FinishOne(s, k);
    RecordedLeaves(s.store, w);
    OpenKeepsDigests(s.store, w);
    TakenIsNotDisjoint(Remaining(s.store), Apply(w, s.store).store, w);
  }

  lemma TakenIsNotDisjoint(before: Store, after: Store, w: Write)
    requires OnePerDigest(after) && w.Open? && w.kind == "transfer" && !NotLocked(before, Claimed(w))
    requires Made(w) in after && forall r :: r in before ==> r in after && r.digest != w.digest
    ensures !Disjoint(after)
  {
    var c :| Mentions(Claimed(w), c) && Mentions(LockedInputs(before), c);
    LockedIff(before, c);
    var i :| 0 <= i < |before| && InFlight(before[i]) && Mentions(before[i].inputs, c);
    assert before[i] in before;
    DisjointByPairs(after);
    assert !DisjointPair(before[i], Made(w));
  }

  /**
   Whatever the order in which confirmations under way load and save, no note gets into two transfers in
   flight, exactly when no two for different operations share a note and none asks for a note of a receipt
   that stays. A confirmation recorded since the check is such a receipt.
   */
  lemma DisjointIffNoOverlap(s: State)
    requires Ready(s)
    ensures (forall events | Finishing(events) :: Disjoint(RunFrom(s, events).store)) <==>
            NoOverlap(s.tasks) && NoneTaken(s)
  {
    if NoOverlap(s.tasks) && NoneTaken(s) {
      forall events | Finishing(events) ensures Disjoint(RunFrom(s, events).store) {
        FinishingSourced(s, events);
        SourcedDisjoint(s, RunFrom(s, events).store);
      }
    } else {
      var events := BreakingRun(s);
    }
  }

  lemma BreakingRun(s: State) returns (events: seq<Event>)
    requires Ready(s) && !(NoOverlap(s.tasks) && NoneTaken(s))
    ensures Finishing(events) && !Disjoint(RunFrom(s, events).store)
  {
    if NoOverlap(s.tasks) {
      var k :| 0 <= k < |s.tasks| && !NotLocked(Remaining(s.store), Claimed(s.tasks[k].write));
      TakenBreaks(s, k);
      events := [Load(k), Save(k)];
    } else {
      var a, b := Overlapping(s);
      OverlapBreaks(s, a, b);
      events := InTurn(a, b);
    }
  }

  // ----- without the guards: lost receipts

  /** Nothing that was recorded is missing: neither a receipt from before nor one of a finished confirmation. */
  ghost predicate NothingLost(s: State, t: State)
    requires Ready(s)
  {
    && (forall r :: r in s.store ==> r in t.store)
    && forall k :: 0 <= k < |t.tasks| && t.tasks[k].phase.Done? && t.tasks[k].write.Open? ==>
         Position(t.store, t.tasks[k].write.digest) < |t.store|
  }

  ghost predicate SameDigest(tasks: seq<Task>)
    requires forall k :: 0 <= k < |tasks| ==> tasks[k].write.Open?
  {
    forall i, j :: 0 <= i < j < |tasks| ==> tasks[i].write.digest == tasks[j].write.digest
  }

  /** The store as it was, or with one receipt of that digest more. */
  ghost predicate AtMostOneMore(store: Store, digest: Digest, later: Store)
  {
    later == store || OneMore(store, digest, later)
  }

  ghost predicate OneMore(store: Store, digest: Digest, later: Store)
  {
    |later| == |store| + 1 && later[..|store|] == store && later[|store|].digest == digest
  }

  ghost predicate AloneProgress(s: State, t: State, digest: Digest)
    requires Ready(s)
  {
    && |t.tasks| == |s.tasks| && AtMostOneMore(s.store, digest, t.store)
    && forall k :: 0 <= k < |t.tasks| ==>
         && t.tasks[k].write == s.tasks[k].write && t.tasks[k].write.Open? && t.tasks[k].write.digest == digest
         && (t.tasks[k].phase.Done? ==> OneMore(s.store, digest, t.store))
         && (t.tasks[k].phase.Loaded? ==>
               && AtMostOneMore(s.store, digest, t.tasks[k].phase.snapshot)
               && (t.tasks[k].phase.snapshot != s.store ==> OneMore(s.store, digest, t.store)))
  }

  lemma SaveAlone(s: State, t: State, digest: Digest, k: nat)
    requires Ready(s) && |s.store| < MAX_RECEIPTS && AloneProgress(s, t, digest)
    requires k < |t.tasks| && t.tasks[k].phase.Loaded?
    ensures AloneProgress(s, Next(t, Save(k)), digest)
  {
    var snapshot, w := t.tasks[k].phase.snapshot, t.tasks[k].write;
    assert Checked(s.store, s.tasks[k]);
    if snapshot == s.store {
      assert Apply(w, snapshot) == Changed(s.store + [Made(w)]);
      assert (s.store + [Made(w)])[..|s.store|] == s.store;
    } else {
      assert snapshot[|s.store|].digest == digest;
      assert Position(snapshot, digest) <= |s.store|;
      assert Apply(w, snapshot).DuplicateReceipt?;
    }
  }

  lemma {:induction false} FinishingAlone(s: State, events: seq<Event>, digest: Digest)
    requires Ready(s) && |s.store| < MAX_RECEIPTS && Finishing(events)
    requires forall k :: 0 <= k < |s.tasks| ==> s.tasks[k].write.digest == digest
    ensures AloneProgress(s, RunFrom(s, events), digest)
  {
    if events == [] {
      forall k | 0 <= k < |s.tasks| ensures s.tasks[k].phase.Waiting? && s.tasks[k].write.Open? {
        assert Checked(s.store, s.tasks[k]);
      }
    } else {
      var before, last := RunFrom(s, events[..|events| - 1]), events[|events| - 1];
      FinishingAlone(s, events[..|events| - 1], digest);
      if last.Save? && last.k < |before.tasks| && before.tasks[last.k].phase.Loaded? {
        SaveAlone(s, before, digest, last.k);
      }
    }
  }

  lemma OneMoreLosesNothing(s: State, t: State, digest: Digest)
    requires Ready(s) && AloneProgress(s, t, digest)
    ensures NothingLost(s, t)
  {
    forall r | r in s.store ensures r in t.store {
      var i :| 0 <= i < |s.store| && s.store[i] == r;
      assert t.store[i] == r;
    }
    forall k | 0 <= k < |t.tasks| && t.tasks[k].phase.Done? ensures Position(t.store, digest) < |t.store| {
      assert t.store[|s.store|].digest == digest;
    }
  }

  function Together(a: nat, b: nat): seq<Event>
  {
    [Load(a), Load(b), Save(a), Save(b)]
  }

  /** Two handlers that load before either saves: the second save writes over the first. */
  lemma TogetherLoses(s: State, a: nat, b: nat)
    requires Ready(s) && |s.store| < MAX_RECEIPTS && a < |s.tasks| && b < |s.tasks|
    requires s.tasks[a].write.Open? && s.tasks[b].write.Open?
    requires s.tasks[a].write.digest != s.tasks[b].write.digest
    ensures !NothingLost(s, RunFrom(s, Together(a, b)))
  {
    assert Checked(s.store, s.tasks[a]) && Checked(s.store, s.tasks[b]);
    TogetherResult(s, a, b);
    var t := RunFrom(s, Together(a, b));
    NotAmong(t.store, s.store, Made(s.tasks[b].write), s.tasks[a].write.digest);
  }

  lemma TogetherResult(s: State, a: nat, b: nat)
    requires a < |s.tasks| && b < |s.tasks| && a != b && |s.store| < MAX_RECEIPTS
    requires Checked(s.store, s.tasks[a]) && Checked(s.store, s.tasks[b])
    ensures var t := RunFrom(s, Together(a, b));
            && t.store == s.store + [Made(s.tasks[b].write)]
            && |t.tasks| == |s.tasks| && t.tasks[a] == s.tasks[a].(phase := Done)
  {
    RunFour(s, Load(a), Load(b), Save(a), Save(b));
    var loaded := Next(Next(s, Load(a)), Load(b));
    assert loaded.tasks[a] == s.tasks[a].(phase := Loaded(s.store));
    assert loaded.tasks[b] == s.tasks[b].(phase := Loaded(s.store));
    assert Apply(s.tasks[b].write, s.store) == Changed(s.store + [Made(s.tasks[b].write)]);
  }

  lemma Different(s: State) returns (a: nat, b: nat)
    requires Ready(s) && forall k :: 0 <= k < |s.tasks| ==> s.tasks[k].write.Open?
    requires !SameDigest(s.tasks)
    ensures a < |s.tasks| && b < |s.tasks| && s.tasks[a].write.digest != s.tasks[b].write.digest
  {
    a, b :| 0 <= a < b < |s.tasks| && s.tasks[a].write.digest != s.tasks[b].write.digest;
  }

  lemma AloneLosesNothing(s: State, events: seq<Event>)
    requires Ready(s) && |s.store| < MAX_RECEIPTS && Finishing(events)
    requires forall k :: 0 <= k < |s.tasks| ==> s.tasks[k].write.Open?
    requires SameDigest(s.tasks)
    ensures NothingLost(s, RunFrom(s, events))
  {
    var digest := if s.tasks == [] then "" else s.tasks[0].write.digest;
    FinishingAlone(s, events, digest);
    OneMoreLosesNothing(s, RunFrom(s, events), digest);
  }

  /**
   While there is room, confirmations under way lose no receipt whatever their interleaving exactly when
   they are all for one and the same operation.
   */
  lemma NothingLostIffAlone(s: State)
    requires Ready(s) && |s.store| < MAX_RECEIPTS
    ensures (forall k :: 0 <= k < |s.tasks| ==> s.tasks[k].write.Open?)
    ensures (forall events | Finishing(events) :: NothingLost(s, RunFrom(s, events))) <==> SameDigest(s.tasks)
  {
    forall k | 0 <= k < |s.tasks| ensures s.tasks[k].write.Open? {
      assert Checked(s.store, s.tasks[k]);
    }
    if SameDigest(s.tasks) {
      forall events | Finishing(events) ensures NothingLost(s, RunFrom(s, events)) {
        AloneLosesNothing(s, events);
      }
    } else {
      var a, b := Different(s);
      TogetherLoses(s, a, b);
      assert Finishing(Together(a, b));
    }
  }

  // ----- both failures as runs

  lemma {:induction false} RunConcat(s: State, first: seq<Event>, rest: seq<Event>)
    ensures RunFrom(s, first + rest) == RunFrom(RunFrom(s, first), rest)
  {
    if rest == [] {
      assert first + rest == first;
    } else {
      var shorter, last := rest[..|rest| - 1], rest[|rest| - 1];
      RunConcat(s, first, shorter);
      RunSnoc(s, first + shorter, last);
      RunSnoc(RunFrom(s, first), shorter, last);
      LastSplit(rest);
      Associative(first, shorter, [last]);
    }
  }

  function Asked(c: Commitment, digest: Digest): Event
  {
    Confirm([c], true, digest, map[], 0)
  }

  function Pending(c: Commitment, digest: Digest): Task
  {
    Task(Open(digest, "transfer", Recorded([c], map[]), 0), Waiting)
  }

  lemma PendingClaims(c: Commitment, digest: Digest)
    requires c != ""
    ensures Claimed(Pending(c, digest).write) == [Input(c, None)]
  {
    var recorded := Recorded([c], map[]);
    assert recorded == [Input(c, None)];
    FilterAll((i: Input) => i.commitment != "", recorded);
  }

  /** Two messages checked against an empty store both pass. */
  lemma TwoAsked(c: Commitment, e: Commitment, a: Digest, b: Digest)
    requires c != "" && e != "" && ValidDigest(a) && ValidDigest(b)
    ensures var s := RunFrom(State([], []), [Asked(c, a), Asked(e, b)]);
            s == State([], [Pending(c, a), Pending(e, b)]) && Ready(s)
  {
    assert LockedInputs([]) == [] && AddAll([], []) == [];
    FirstTakenFacts([], [c]);
    FirstTakenFacts([], [e]);
    RunSnoc(State([], []), [], Asked(c, a));
    RunSnoc(State([], []), [] + [Asked(c, a)], Asked(e, b));
    assert [] + [Asked(c, a)] + [Asked(e, b)] == [Asked(c, a), Asked(e, b)];
    PendingClaims(c, a);
    PendingClaims(e, b);
  }

  /** Two confirmations of one note that are checked before either is recorded put the note in two transfers. */
  lemma OverlappingConfirmations(c: Commitment, a: Digest, b: Digest)
    requires c != "" && ValidDigest(a) && ValidDigest(b) && a != b
    ensures !Disjoint(RunFrom(State([], []), [Asked(c, a), Asked(c, b)] + InTurn(0, 1)).store)
  {
    TwoAsked(c, c, a, b);
    RunConcat(State([], []), [Asked(c, a), Asked(c, b)], InTurn(0, 1));
    PendingClaims(c, a);
    PendingClaims(c, b);
    assert [Input(c, None)][0].commitment == c;
    assert Mentions([Input(c, None)], c);
    OverlapBreaks(State([], [Pending(c, a), Pending(c, b)]), 0, 1);
  }

  /** A confirmation recorded and then written over: its note passes the check again. */
  lemma LostReceiptFreesNote(c: Commitment, e: Commitment, a: Digest, b: Digest)
    requires c != "" && e != "" && c != e && ValidDigest(a) && ValidDigest(b) && a != b
    ensures var t := RunFrom(State([], []), [Asked(c, a), Asked(e, b)] + Together(0, 1));
            t.tasks != [] && t.tasks[0] == Pending(c, a).(phase := Done) && !Conflicts(t.store, [c])
  {
    var s := State([], [Pending(c, a), Pending(e, b)]);
    TwoAsked(c, e, a, b);
    RunConcat(State([], []), [Asked(c, a), Asked(e, b)], Together(0, 1));
    assert Checked(s.store, s.tasks[0]) && Checked(s.store, s.tasks[1]);
    TogetherResult(s, 0, 1);
    PendingClaims(e, b);
    OnlyLock(Made(Pending(e, b).write), e, c);
    assert [] + [Made(Pending(e, b).write)] == [Made(Pending(e, b).write)];
  }

  lemma OnlyLock(r: Receipt, e: Commitment, c: Commitment)
    requires InFlight(r) && r.inputs == [Input(e, None)] && c != e
    ensures !Conflicts([r], [c])
  {
    LockedIff([r], c);
  }
}
