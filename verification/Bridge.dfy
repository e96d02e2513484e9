/** The settlement bridge in stream mode: one anchor transaction at a time, confirmed by the account nonce. */
module Bridge {
  import opened Seqs

  const STRICT_READ_ATTEMPTS: nat := 8
  const ATTEMPTS_PER_BINDING: nat := 3

  type Binding = string

  // ----- reading the account nonce

  /** The largest answer of the replicas; failed reads do not count. */
  method ChainNonceMax(replies: seq<Option<nat>>) returns (best: Option<nat>)
    ensures best.None? <==> forall i :: 0 <= i < |replies| ==> replies[i].None?
    ensures best.Some? ==>
              best in replies && forall i :: 0 <= i < |replies| && replies[i].Some? ==> replies[i].value <= best.value
  {
    best := None;
    for i := 0 to |replies|
      invariant best.None? <==> forall k :: 0 <= k < i ==> replies[k].None?
      invariant best.Some? ==>
                  best in replies && forall k :: 0 <= k < i && replies[k].Some? ==> replies[k].value <= best.value
    {
      if replies[i].Some? && (best.None? || replies[i].value > best.value) {
        best := replies[i];
      }
    }
  }

  /** The answers of all replicas, then one more read of the main node. */
  datatype Poll = Poll(replies: seq<Option<nat>>, main: Option<nat>)

  ghost predicate Answered(p: Poll)
  {
    p.main.Some? || exists i :: 0 <= i < |p.replies| && p.replies[i].Some?
  }

  ghost predicate AnswerIn(p: Poll, n: nat)
  {
    p.main == Some(n) || Some(n) in p.replies
  }

  /** Gives up rather than fall back to an old value; what it returns was read from a node. */
  method StrictChainNonce(polls: seq<Poll>) returns (n: Option<nat>)
    requires |polls| == 8
    ensures n.None? <==> forall k :: 0 <= k < |polls| ==> !Answered(polls[k])
    ensures n.Some? ==>
              exists k :: 0 <= k < |polls| && AnswerIn(polls[k], n.value) &&
                          forall j :: 0 <= j < k ==> !Answered(polls[j])
  {
    for k := 0 to STRICT_READ_ATTEMPTS
      invariant forall j :: 0 <= j < k ==> !Answered(polls[j])
    {
      n := ChainNonceMax(polls[k].replies);
      if n.Some? {
        assert AnswerIn(polls[k], n.value);
        var i :| 0 <= i < |polls[k].replies| && polls[k].replies[i] == n;
        return n;
      }
      n := polls[k].main;
      if n.Some? {
        assert AnswerIn(polls[k], n.value);
        return n;
      }
    }
    return None;
  }

  // ----- what the bridge does, as a log

  /** A transaction handed out for a binding at a nonce, and a binding recorded as anchored after reading `seen`. */
  datatype Act = Tried(binding: Binding, nonce: nat) | Recorded(binding: Binding, nonce: nat, seen: nat)

  type Log = seq<Act>

  ghost function Done(log: Log): set<Binding>
  {
    set a | a in log && a.Recorded? :: a.binding
  }

  /** The binding that has been tried but not recorded yet. */
  function Open(log: Log): Option<Binding>
  {
    if log != [] && log[|log| - 1].Tried? then Some(log[|log| - 1].binding) else None
  }

  /** One binding at a time: the next one is tried only after the previous one was recorded, and none comes back. */
  ghost predicate MayFollow(log: Log, a: Act)
  {
    match a
    case Tried(b, _) => b !in Done(log) && (Open(log) == None || Open(log) == Some(b))
    case Recorded(b, n, seen) => log != [] && log[|log| - 1] == Tried(b, n) && seen > n
  }

  ghost predicate Disciplined(log: Log)
  {
    log == [] || (Disciplined(log[..|log| - 1]) && MayFollow(log[..|log| - 1], log[|log| - 1]))
  }

  lemma Snoc(log: Log, a: Act)
    requires Disciplined(log) && MayFollow(log, a)
    ensures Disciplined(log + [a])
    ensures Done(log + [a]) == Done(log) + if a.Recorded? then {a.binding} else {}
    ensures Open(log + [a]) == if a.Tried? then Some(a.binding) else None
  {
    assert (log + [a])[..|log|] == log;
  }

  // ----- the rows to anchor

  function Unanchored(rows: seq<Binding>, done: set<Binding>): (r: seq<Binding>)
    ensures forall b :: b in r <==> b in rows && b !in done
  {
    if rows == [] then []
    else if rows[0] in done then Unanchored(rows[1..], done)
    else [rows[0]] + Unanchored(rows[1..], done)
  }

  lemma {:induction false} UnanchoredGrows(rows: seq<Binding>, more: seq<Binding>, done: set<Binding>)
    ensures Unanchored(rows + more, done) == Unanchored(rows, done) + Unanchored(more, done)
  {
    if rows == [] {
      assert rows + more == more;
    } else {
      var all := rows + more;
      assert all[0] == rows[0] && all[1..] == rows[1..] + more;
      UnanchoredGrows(rows[1..], more, done);
      if rows[0] !in done {
        Associative([rows[0]], Unanchored(rows[1..], done), Unanchored(more, done));
      }
    }
  }

  lemma {:induction false} UnanchoredNext(rows: seq<Binding>, done: set<Binding>)
    requires Distinct(rows) && Unanchored(rows, done) != []
    ensures Unanchored(rows, done + {Unanchored(rows, done)[0]}) == Unanchored(rows, done)[1..]
  {
    var b := Unanchored(rows, done)[0];
    if rows[0] in done {
      UnanchoredNext(rows[1..], done);
    } else {
      SameWithout(rows[1..], done, b);
    }
  }

  lemma {:induction false} SameWithout(rows: seq<Binding>, done: set<Binding>, b: Binding)
    requires b !in rows
    ensures Unanchored(rows, done + {b}) == Unanchored(rows, done)
  {
    if rows != [] {
      SameWithout(rows[1..], done, b);
    }
  }

  // ----- one round

  datatype Built = Submitted | NonceRejected | Failed

  /** What the surroundings answer to one attempt: the nonce read, the submission, the nonces read while waiting. */
  datatype Attempt = Attempt(start: Option<nat>, built: Built, readings: seq<Option<nat>>)

  datatype Confirmation = Confirmation(nonce: nat, seen: nat)

  /** The transaction went out, at the nonce that was read. */
  predicate Sent(a: Attempt)
  {
    a.start.Some? && a.built == Submitted
  }

  /** Sent, and a later reading shows its nonce as taken. */
  predicate Confirms(a: Attempt)
  {
    Sent(a) && exists k :: 0 <= k < |a.readings| && a.readings[k].Some? && a.readings[k].value > a.start.value
  }

  /** No nonce could be read, or the transaction could not be built for another reason than its nonce. */
  predicate Hopeless(a: Attempt)
  {
    a.start == None || a.built == Failed
  }

  /** The attempts made for one binding: at most three, up to the first that confirms or is hopeless. */
  function Used(attempts: seq<Attempt>, budget: nat): (n: nat)
    ensures n <= |attempts| && n <= budget
    decreases budget
  {
    if attempts == [] || budget == 0 then 0
    else if Confirms(attempts[0]) || Hopeless(attempts[0]) then 1
    else 1 + Used(attempts[1..], budget - 1)
  }

  lemma {:induction false} UsedFacts(attempts: seq<Attempt>, budget: nat)
    ensures var n := Used(attempts, budget);
            && (forall k :: 0 <= k < n - 1 ==> !Confirms(attempts[k]) && !Hopeless(attempts[k]))
            && (n < |attempts| && n < budget ==> n > 0 && (Confirms(attempts[n - 1]) || Hopeless(attempts[n - 1])))
    decreases budget
  {
    if !(attempts == [] || budget == 0) {
      UsedFacts(attempts[1..], budget - 1);
      var n := Used(attempts, budget);
      forall k | 0 < k < n - 1 ensures !Confirms(attempts[k]) && !Hopeless(attempts[k]) {
        assert attempts[k] == attempts[1..][k - 1];
      }
    }
  }

  lemma {:induction false} UsedIs(attempts: seq<Attempt>, budget: nat, n: nat)
    requires n <= |attempts| && n <= budget
    requires forall k :: 0 <= k < n - 1 ==> !Confirms(attempts[k]) && !Hopeless(attempts[k])
    requires n == |attempts| || n == budget || (n > 0 && (Confirms(attempts[n - 1]) || Hopeless(attempts[n - 1])))
    ensures Used(attempts, budget) == n
    decreases budget
  {
    if n > 1 || (n == 1 && !(Confirms(attempts[0]) || Hopeless(attempts[0]))) {
      forall k | 0 <= k < n - 2
        ensures !Confirms(attempts[1..][k]) && !Hopeless(attempts[1..][k])
      {
        assert attempts[1..][k] == attempts[k + 1];
      }
      UsedIs(attempts[1..], budget - 1, n - 1);
    }
  }

  /** The log entries of some attempts: one for each that was sent, in order. */
  function TriesOf(b: Binding, attempts: seq<Attempt>): Log
  {
    if attempts == [] then []
    else
      var last := attempts[|attempts| - 1];
      TriesOf(b, attempts[..|attempts| - 1]) + if Sent(last) then [Tried(b, last.start.value)] else []
  }

  /** One entry for each attempt with a submitted transaction, in order, at the nonce that was read for it. */
  lemma {:induction false} LoggedInOrder(b: Binding, attempts: seq<Attempt>)
    ensures var sent := Filter((a: Attempt) => a.start.Some? && a.built == Submitted, attempts);
            && |TriesOf(b, attempts)| == |sent|
            && forall i :: 0 <= i < |sent| ==>
                 sent[i].start.Some? && TriesOf(b, attempts)[i] == Tried(b, sent[i].start.value)
  {
    if attempts != [] {
      var before, last := attempts[..|attempts| - 1], attempts[|attempts| - 1];
      LoggedInOrder(b, before);
      assert attempts == before + [last];
      FilterConcat((a: Attempt) => a.start.Some? && a.built == Submitted, before, [last]);
    }
  }

  /** Whether the attempts for one binding end in a confirmation. */
  predicate Anchors(attempts: seq<Attempt>)
  {
    var n := Used(attempts, ATTEMPTS_PER_BINDING);
    n > 0 && Confirms(attempts[n - 1])
  }

  lemma AnchorsMeans(attempts: seq<Attempt>)
    ensures var n := Used(attempts, 3);
            Anchors(attempts) <==> n > 0 && var last := attempts[n - 1];
                && last.start.Some? && last.built == Submitted
                && exists seen :: seen in last.readings && seen.Some? && seen.value > last.start.value
  {
    var n := Used(attempts, 3);
    if n > 0 && attempts[n - 1].start.Some? {
      var last := attempts[n - 1];
      if seen :| seen in last.readings && seen.Some? && seen.value > last.start.value {
        var k :| 0 <= k < |last.readings| && last.readings[k] == seen;
      }
    }
  }

  /** How many of `rows` bindings are anchored in turn: as many as confirm before the first that does not. */
  function AnchoredInTurn(rows: nat, script: seq<Attempt>): (n: nat)
    ensures n <= rows
  {
    if rows == 0 || !Anchors(script) then 0
    else 1 + AnchoredInTurn(rows - 1, script[Used(script, ATTEMPTS_PER_BINDING)..])
  }

  ghost predicate Consistent(anchored: map<Binding, nat>, log: Log, rows: seq<Binding>)
  {
    && Disciplined(log)
    && anchored.Keys == Done(log)
    && (forall b :: b in anchored ==> exists seen :: Recorded(b, anchored[b], seen) in log)
    && (Open(log).Some? ==> Unanchored(rows, Done(log)) != [] && Unanchored(rows, Done(log))[0] == Open(log).value)
  }

  /** Attempts at the first row without an anchor keep the state file and the log together. */
  lemma TriesKeepConsistent(anchored: map<Binding, nat>, base: Log, log: Log, rows: seq<Binding>, b: Binding)
    requires Consistent(anchored, base, rows) && OnlyTries(base, log, b)
    requires Unanchored(rows, Done(base)) != [] && Unanchored(rows, Done(base))[0] == b
    ensures Consistent(anchored, log, rows)
  {
    forall x | x in anchored ensures exists seen :: Recorded(x, anchored[x], seen) in log {
      var seen :| Recorded(x, anchored[x], seen) in base;
      var i :| 0 <= i < |base| && base[i] == Recorded(x, anchored[x], seen);
      assert log[i] == base[i];
    }
  }

  class Anchoring {
    var anchored: map<Binding, nat>
    ghost var log: Log

    /** The index is append-only and names each binding once; a binding left open is the first one without an anchor. */
    ghost predicate Valid(rows: seq<Binding>)
      reads this
    {
      Consistent(anchored, log, rows)
    }

    constructor ()
      ensures anchored == map[] && log == []
      ensures forall rows :: Valid(rows)
    {
      anchored := map[];
      log := [];
    }

    lemma RowsGrow(rows: seq<Binding>, more: seq<Binding>)
      requires Valid(rows)
      ensures Valid(rows + more)
    {
      UnanchoredGrows(rows, more, Done(log));
    }

    /** Wait for the account nonce to pass `nonce`. */
    method Confirmed(nonce: nat, readings: seq<Option<nat>>) returns (seen: Option<nat>)
      ensures seen.Some? ==> seen in readings && seen.value > nonce
      ensures seen.None? ==> forall i :: 0 <= i < |readings| && readings[i].Some? ==> readings[i].value <= nonce
    {
      for i := 0 to |readings|
        invariant forall k :: 0 <= k < i && readings[k].Some? ==> readings[k].value <= nonce
      {
        if readings[i].Some? && readings[i].value > nonce { return readings[i]; }
      }
      return None;
    }

    /**
     Up to three attempts at one binding. It ends early only when an attempt confirms, the nonce cannot be
     read or the build fails; a build refused for its nonce is tried again. Every transaction sent is logged.
     */
    method AnchorOne(b: Binding, attempts: seq<Attempt>) returns (c: Option<Confirmation>, used: nat)
      modifies this`log
      ensures used == Used(attempts, 3) <= |attempts|
      ensures log == old(log) + TriesOf(b, attempts[..used])
      ensures c.Some? <==> Anchors(attempts)
      ensures used <= 3
      ensures c.None? && used < 3 && used < |attempts| ==>
                used > 0 && (attempts[used - 1].start.None? || attempts[used - 1].built == Failed)
      ensures c.Some? <==> used > 0 && var last := attempts[used - 1];
                           && last.start.Some? && last.built == Submitted
                           && exists seen :: seen in last.readings && seen.Some? && seen.value > last.start.value
      ensures c.Some? ==>
                && Some(c.value.nonce) == attempts[used - 1].start && Some(c.value.seen) in attempts[used - 1].readings
                && log != [] && log[|log| - 1] == Tried(b, c.value.nonce) && c.value.seen > c.value.nonce
    {
      c, used := None, 0;
      AnchorsMeans(attempts);
      while used < ATTEMPTS_PER_BINDING && used < |attempts|
        invariant used <= ATTEMPTS_PER_BINDING && used <= |attempts|
        invariant NoneYet(attempts, used) && log == old(log) + TriesOf(b, attempts[..used])
      {
        var a := attempts[used];
        TriesSnoc(old(log), b, attempts, used);
        if a.start.None? || a.built.Failed? {
          EndsHere(attempts, used);
          return None, used + 1;
        }
        if a.built.Submitted? {
          log := log + [Tried(b, a.start.value)];
          var seen := Confirmed(a.start.value, a.readings);
          ReadingDecides(a, seen);
          if seen.Some? {
            EndsHere(attempts, used);
            return Some(Confirmation(a.start.value, seen.value)), used + 1;
          }
        }
        used := used + 1;
      }
      NoneConfirmed(attempts, used);
    }

    method Record(rows: seq<Binding>, b: Binding, c: Confirmation)
      requires Valid(rows) && Distinct(rows)
      requires log != [] && log[|log| - 1] == Tried(b, c.nonce) && c.seen > c.nonce
      modifies this
      ensures Valid(rows)
      ensures log == old(log) + [Recorded(b, c.nonce, c.seen)]
      ensures anchored == old(anchored)[b := c.nonce]
      ensures Unanchored(rows, Done(log)) == old(Unanchored(rows, Done(log)))[1..]
    {
      UnanchoredNext(rows, Done(log));
      Snoc(log, Recorded(b, c.nonce, c.seen));
      anchored := anchored[b := c.nonce];
      log := log + [Recorded(b, c.nonce, c.seen)];
      assert Recorded(b, anchored[b], c.seen) in log;
    }

    /** The first row without an anchor. */
    method AnchorNext(rows: seq<Binding>, script: seq<Attempt>) returns (done: bool, rest: seq<Attempt>)
      requires Valid(rows) && Distinct(rows) && Unanchored(rows, Done(log)) != []
      modifies this
      ensures Valid(rows) && Prefix(old(log), log) && Unchanged(old(anchored), anchored)
      ensures done <==> Anchors(script)
      ensures rest == script[Used(script, ATTEMPTS_PER_BINDING)..]
      ensures Unanchored(rows, Done(log)) == old(Unanchored(rows, Done(log)))[if done then 1 else 0..]
    {
      var b := Unanchored(rows, anchored.Keys)[0];
      var c, used := AnchorOne(b, script);
      TriedFirst(anchored, old(log), log, rows, b, script, used);
      rest := script[used..];
      done := c.Some?;
      if done {
        Record(rows, b, c.value);
      }
    }

    /**
     The rows without an anchor, in order; the first one that is not confirmed ends the round. Anchored
     afterwards are exactly the longest prefix of them whose attempts confirm.
     */
    method StreamRound(rows: seq<Binding>, more: seq<Binding>, script: seq<Attempt>)
      requires Valid(rows) && Distinct(rows + more)
      modifies this
      ensures Valid(rows + more)
      ensures Prefix(old(log), log) && Unchanged(old(anchored), anchored)
      ensures var stream := Unanchored(rows + more, old(anchored).Keys);
              Unanchored(rows + more, anchored.Keys) == stream[AnchoredInTurn(|stream|, script)..]
    {
      RowsGrow(rows, more);
      var all, rest := rows + more, script;
      var stream := Unanchored(all, anchored.Keys);
      PrefixSelf(log, anchored);
      for i := 0 to |stream|
        invariant Streaming(all, log, anchored, stream, i, script, rest)
        invariant Prefix(old(log), log) && Unchanged(old(anchored), anchored)
      {
        ghost var left, log1, anchored1 := rest, log, anchored;
        var done;
        done, rest := AnchorNext(all, rest);
        NextInTurn(stream, i, left);
        StillUnchanged(old(log), log1, log, old(anchored), anchored1, anchored);
        if !done { return; }
      }
    }
  }

  /** The first `i` bindings of the stream are anchored, the others are not, and the rest of the script is for them. */
  ghost predicate Streaming(
    all: seq<Binding>, log: Log, anchored: map<Binding, nat>, stream: seq<Binding>, i: nat,
    script: seq<Attempt>, rest: seq<Attempt>)
  {
    && i <= |stream| && Consistent(anchored, log, all) && Unanchored(all, Done(log)) == stream[i..]
    && AnchoredInTurn(|stream|, script) == i + AnchoredInTurn(|stream| - i, rest)
  }

  lemma PrefixSelf(log: Log, anchored: map<Binding, nat>)
    ensures Prefix(log, log) && Unchanged(anchored, anchored)
  {
  }

  lemma StillUnchanged(
    base: Log, log: Log, longer: Log, was: map<Binding, nat>, anchored: map<Binding, nat>, more: map<Binding, nat>)
    requires Prefix(base, log) && Prefix(log, longer) && Unchanged(was, anchored) && Unchanged(anchored, more)
    ensures Prefix(base, longer) && Unchanged(was, more)
  {
  }

  lemma NextInTurn(stream: seq<Binding>, i: nat, script: seq<Attempt>)
    requires i < |stream|
    ensures AnchoredInTurn(|stream| - i, script) ==
            if Anchors(script)
            then 1 + AnchoredInTurn(|stream| - i - 1, script[Used(script, ATTEMPTS_PER_BINDING)..])
            else 0
    ensures stream[i..][1..] == stream[i + 1..] && stream[i..][0..] == stream[i..]
  {
  }

  /** Anchors are added, never moved. */
  ghost predicate Unchanged(before: map<Binding, nat>, after: map<Binding, nat>)
  {
    forall b :: b in before ==> b in after && after[b] == before[b]
  }

  ghost predicate Prefix(base: Log, log: Log)
  {
    |base| <= |log| && log[..|base|] == base
  }

  /** The log grew by attempts at one binding only. */
  ghost predicate OnlyTries(base: Log, log: Log, b: Binding)
  {
    Disciplined(log) && Done(log) == Done(base) && Prefix(base, log) && (log == base || Open(log) == Some(b))
  }

  lemma TriedFirst(
    anchored: map<Binding, nat>, base: Log, log: Log, rows: seq<Binding>, b: Binding, script: seq<Attempt>, used: nat)
    requires Consistent(anchored, base, rows) && used <= |script| && log == base + TriesOf(b, script[..used])
    requires Unanchored(rows, Done(base)) != [] && Unanchored(rows, Done(base))[0] == b
    ensures Consistent(anchored, log, rows) && Done(log) == Done(base) && Prefix(base, log)
  {
    assert b in Unanchored(rows, Done(base));
    TriesDisciplined(base, b, script, used);
    TriesKeepConsistent(anchored, base, log, rows, b);
  }

  /** The attempts so far neither confirmed nor were hopeless. */
  ghost predicate NoneYet(attempts: seq<Attempt>, used: nat)
  {
    used <= |attempts| && forall k :: 0 <= k < used ==> !Confirms(attempts[k]) && !Hopeless(attempts[k])
  }

  lemma TriesSnoc(base: Log, b: Binding, attempts: seq<Attempt>, k: nat)
    requires k < |attempts|
    ensures base + TriesOf(b, attempts[..k + 1]) ==
            base + TriesOf(b, attempts[..k]) + if Sent(attempts[k]) then [Tried(b, attempts[k].start.value)] else []
  {
    assert attempts[..k + 1][..k] == attempts[..k];
  }

  /** Attempts at a binding that may be tried only add tries of it to the log. */
  lemma {:induction false} TriesDisciplined(base: Log, b: Binding, attempts: seq<Attempt>, k: nat)
    requires Disciplined(base) && b !in Done(base) && (Open(base) == None || Open(base) == Some(b)) && k <= |attempts|
    ensures OnlyTries(base, base + TriesOf(b, attempts[..k]), b)
  {
    if k == 0 {
      assert base + TriesOf(b, attempts[..0]) == base;
    } else {
      TriesDisciplined(base, b, attempts, k - 1);
      TriesSnoc(base, b, attempts, k - 1);
      if Sent(attempts[k - 1]) {
        AnotherTry(base, base + TriesOf(b, attempts[..k - 1]), b, attempts[k - 1].start.value);
      } else {
        assert base + TriesOf(b, attempts[..k - 1]) + [] == base + TriesOf(b, attempts[..k - 1]);
      }
    }
  }

  /** What the wait for a confirmation finds decides whether the attempt confirms. */
  lemma ReadingDecides(a: Attempt, seen: Option<nat>)
    requires Sent(a)
    requires seen.Some? ==> seen in a.readings && seen.value > a.start.value
    requires seen.None? ==>
               forall i :: 0 <= i < |a.readings| && a.readings[i].Some? ==> a.readings[i].value <= a.start.value
    ensures Confirms(a) <==> seen.Some?
  {
    if seen.Some? {
      var k :| 0 <= k < |a.readings| && a.readings[k] == seen;
    }
  }

  lemma EndsHere(attempts: seq<Attempt>, k: nat)
    requires k < |attempts| && k < ATTEMPTS_PER_BINDING && NoneYet(attempts, k)
    requires Confirms(attempts[k]) || Hopeless(attempts[k])
    ensures Used(attempts, ATTEMPTS_PER_BINDING) == k + 1 && (Anchors(attempts) <==> Confirms(attempts[k]))
  {
    UsedIs(attempts, ATTEMPTS_PER_BINDING, k + 1);
  }

  lemma NoneConfirmed(attempts: seq<Attempt>, k: nat)
    requires NoneYet(attempts, k) && k <= ATTEMPTS_PER_BINDING && (k == |attempts| || k == ATTEMPTS_PER_BINDING)
    ensures Used(attempts, ATTEMPTS_PER_BINDING) == k && !Anchors(attempts)
  {
    UsedIs(attempts, ATTEMPTS_PER_BINDING, k);
  }

  lemma AnotherTry(base: Log, log: Log, b: Binding, nonce: nat)
    requires OnlyTries(base, log, b) && b !in Done(base) && (Open(base) == None || Open(base) == Some(b))
    ensures OnlyTries(base, log + [Tried(b, nonce)], b)
  {
    Snoc(log, Tried(b, nonce));
  }

  // ----- the chain

  /**
   `executed[n]` is the binding carried by the transaction executed at nonce `n` of the bridge's account.
   Only the bridge writes with this account, and the chain executes nonces in order.
   */
  datatype World = World(log: Log, executed: seq<Binding>)

  datatype Step = Bridge(act: Act) | Execute(binding: Binding)

  /** Replicas lag but do not invent: no reading exceeds the number of executed transactions. */
  ghost predicate CanStep(w: World, s: Step)
  {
    match s
    case Bridge(Tried(b, n)) => MayFollow(w.log, Tried(b, n)) && n <= |w.executed|
    case Bridge(Recorded(b, n, seen)) => MayFollow(w.log, Recorded(b, n, seen)) && seen <= |w.executed|
    case Execute(b) => Tried(b, |w.executed|) in w.log
  }

  function After(w: World, s: Step): World
  {
    match s
    case Bridge(a) => w.(log := w.log + [a])
    case Execute(b) => w.(executed := w.executed + [b])
  }

  ghost function Run(steps: seq<Step>): World
  {
    if steps == [] then World([], []) else After(Run(steps[..|steps| - 1]), steps[|steps| - 1])
  }

  ghost predicate IsRun(steps: seq<Step>)
  {
    steps == [] || (IsRun(steps[..|steps| - 1]) && CanStep(Run(steps[..|steps| - 1]), steps[|steps| - 1]))
  }

  function Reading(a: Act): nat
  {
    match a
    case Tried(_, n) => n
    case Recorded(_, _, seen) => seen
  }

  /** No nonce read for an attempt falls below one read before, neither for an attempt nor for a confirmation. */
  ghost predicate ReadsForward(log: Log)
  {
    forall i, j | 0 <= i < j < |log| && log[j].Tried? :: Reading(log[i]) <= log[j].nonce
  }

  /** Nonces of different bindings are tried in strictly increasing order. */
  ghost predicate Separated(log: Log)
  {
    forall i, j | 0 <= i < j < |log| && log[i].Tried? && log[j].Tried? && log[i].binding != log[j].binding ::
      log[i].nonce < log[j].nonce
  }

  lemma {:induction false} ForwardReadsSeparate(log: Log)
    requires Disciplined(log) && ReadsForward(log)
    ensures Separated(log)
    ensures log != [] ==> forall i :: 0 <= i < |log| && log[i].Tried? && Open(log) != Some(log[i].binding) ==>
              log[i].nonce < Reading(log[|log| - 1])
    ensures log != [] ==> forall i :: 0 <= i < |log| && log[i].Tried? ==> log[i].nonce <= Reading(log[|log| - 1])
  {
    if log != [] {
      var before, last := log[..|log| - 1], log[|log| - 1];
      assert forall i :: 0 <= i < |before| ==> before[i] == log[i];
      ForwardReadsSeparate(before);
    }
  }

  ghost predicate ExecutedWasTried(w: World)
  {
    forall n | 0 <= n < |w.executed| :: Tried(w.executed[n], n) in w.log
  }

  lemma {:induction false} RunFacts(steps: seq<Step>)
    requires IsRun(steps)
    ensures Disciplined(Run(steps).log) && ExecutedWasTried(Run(steps))
    ensures RecordsSeen(Run(steps))
  {
    if steps != [] {
      var before, last := steps[..|steps| - 1], steps[|steps| - 1];
      RunFacts(before);
      StepFacts(Run(before), last);
    }
  }

  ghost predicate RecordsSeen(w: World)
  {
    forall a :: a in w.log && a.Recorded? ==> a.nonce < a.seen <= |w.executed| && Tried(a.binding, a.nonce) in w.log
  }

  lemma StepFacts(w: World, s: Step)
    requires Disciplined(w.log) && ExecutedWasTried(w) && RecordsSeen(w) && CanStep(w, s)
    ensures Disciplined(After(w, s).log) && ExecutedWasTried(After(w, s)) && RecordsSeen(After(w, s))
  {
    if s.Bridge? {
      Snoc(w.log, s.act);
    }
  }

  // ----- exactly when a record can be wrong

  /** An entry of the log before `i` read a nonce above `n`: by then the transaction at `n` had been executed. */
  ghost predicate ShownBefore(log: Log, i: nat, n: nat)
    requires i <= |log|
  {
    exists j :: 0 <= j < i && Reading(log[j]) > n
  }

  /** The binding was tried at the nonce while that nonce could still be open. */
  ghost predicate CouldTake(log: Log, b: Binding, n: nat)
  {
    exists i :: 0 <= i < |log| && log[i] == Tried(b, n) && !ShownBefore(log, i, n)
  }

  ghost predicate Founded(log: Log, executed: seq<Binding>)
  {
    forall n :: 0 <= n < |executed| ==> CouldTake(log, executed[n], n)
  }

  /** The highest nonce read so far. */
  function Top(log: Log): (t: nat)
    ensures forall i :: 0 <= i < |log| ==> Reading(log[i]) <= t
  {
    if log == [] then 0
    else
      var before := Top(log[..|log| - 1]);
      assert forall i :: 0 <= i < |log| - 1 ==> log[i] == log[..|log| - 1][i];
      if Reading(log[|log| - 1]) > before then Reading(log[|log| - 1]) else before
  }

  lemma CouldTakeGrows(log: Log, a: Act, b: Binding, n: nat)
    requires CouldTake(log, b, n)
    ensures CouldTake(log + [a], b, n)
  {
    var i :| 0 <= i < |log| && log[i] == Tried(b, n) && !ShownBefore(log, i, n);
    assert (log + [a])[i] == Tried(b, n);
    assert !ShownBefore(log + [a], i, n);
  }

  /** In every run the executed bindings were tried while their nonce was open, and no reading is ahead of the chain. */
  lemma {:induction false} RunFounded(steps: seq<Step>)
    requires IsRun(steps)
    ensures Founded(Run(steps).log, Run(steps).executed) && Top(Run(steps).log) <= |Run(steps).executed|
  {
    if steps != [] {
      RunFounded(steps[..|steps| - 1]);
      StepFounded(Run(steps[..|steps| - 1]), steps[|steps| - 1]);
    }
  }

  lemma StepFounded(w: World, s: Step)
    requires Founded(w.log, w.executed) && Top(w.log) <= |w.executed| && CanStep(w, s)
    ensures Founded(After(w, s).log, After(w, s).executed) && Top(After(w, s).log) <= |After(w, s).executed|
  {
    match s
    case Bridge(a) =>
      assert (w.log + [a])[..|w.log|] == w.log;
      forall n | 0 <= n < |w.executed| ensures CouldTake(w.log + [a], w.executed[n], n) {
        CouldTakeGrows(w.log, a, w.executed[n], n);
      }
    case Execute(b) =>
      var i :| 0 <= i < |w.log| && w.log[i] == Tried(b, |w.executed|);
      assert !ShownBefore(w.log, i, |w.executed|);
  }

  /** The chain takes the picked bindings as late as the readings allow. */
  function Replay(log: Log, picked: seq<Binding>): seq<Step>
    requires Top(log) <= |picked|
  {
    if log == [] then []
    else
      var before, last := log[..|log| - 1], log[|log| - 1];
      Replay(before, picked) + Executions(picked[Top(before)..Top(log)]) + [Bridge(last)]
  }

  function Executions(bindings: seq<Binding>): seq<Step>
  {
    if bindings == [] then []
    else Executions(bindings[..|bindings| - 1]) + [Execute(bindings[|bindings| - 1])]
  }

  lemma RunSnoc(steps: seq<Step>, s: Step)
    ensures Run(steps + [s]) == After(Run(steps), s)
    ensures IsRun(steps + [s]) <==> IsRun(steps) && CanStep(Run(steps), s)
  {
    assert (steps + [s])[..|steps|] == steps;
  }

  lemma {:induction false} ExecutionsRun(steps: seq<Step>, log: Log, executed: seq<Binding>, bindings: seq<Binding>)
    requires IsRun(steps) && Run(steps) == World(log, executed)
    requires forall k :: 0 <= k < |bindings| ==> Tried(bindings[k], |executed| + k) in log
    ensures IsRun(steps + Executions(bindings))
    ensures Run(steps + Executions(bindings)) == World(log, executed + bindings)
  {
    if bindings == [] {
      assert steps + Executions(bindings) == steps && executed + bindings == executed;
    } else {
      var shorter, last := bindings[..|bindings| - 1], bindings[|bindings| - 1];
      ExecutionsRun(steps, log, executed, shorter);
      OneMoreExecution(steps + Executions(shorter), log, executed + shorter, last);
      Associative(steps, Executions(shorter), [Execute(last)]);
      Associative(executed, shorter, [last]);
      LastSplit(bindings);
    }
  }

  lemma OneMoreExecution(steps: seq<Step>, log: Log, executed: seq<Binding>, b: Binding)
    requires IsRun(steps) && Run(steps) == World(log, executed) && Tried(b, |executed|) in log
    ensures IsRun(steps + [Execute(b)]) && Run(steps + [Execute(b)]) == World(log, executed + [b])
  {
    RunSnoc(steps, Execute(b));
  }

  /** Every nonce that the log shows as taken has a binding picked for it that could have taken it. */
  ghost predicate Picks(log: Log, picked: seq<Binding>)
  {
    Top(log) <= |picked| && forall n :: 0 <= n < Top(log) ==> CouldTake(log, picked[n], n)
  }

  /** What could take a nonce that the last entry shows as taken was tried before it. */
  lemma TriedInTime(log: Log, b: Binding, n: nat)
    requires log != [] && CouldTake(log, b, n) && Top(log[..|log| - 1]) <= n < Top(log)
    ensures Tried(b, n) in log[..|log| - 1]
  {
    var i :| 0 <= i < |log| && log[i] == Tried(b, n) && !ShownBefore(log, i, n);
    assert i < |log| - 1;
    assert log[..|log| - 1][i] == log[i];
  }

  lemma CouldTakeShrinks(log: Log, b: Binding, n: nat)
    requires log != [] && CouldTake(log, b, n) && n < Top(log[..|log| - 1])
    ensures CouldTake(log[..|log| - 1], b, n)
  {
    var before := log[..|log| - 1];
    var i :| 0 <= i < |log| && log[i] == Tried(b, n) && !ShownBefore(log, i, n);
    TopIsRead(before, n);
    var j :| 0 <= j < |before| && Reading(before[j]) > n;
    assert before[j] == log[j] && i <= j;
    assert before[i] == Tried(b, n);
    assert !ShownBefore(before, i, n);
  }

  lemma {:induction false} TopIsRead(log: Log, n: nat)
    requires n < Top(log)
    ensures exists j :: 0 <= j < |log| && Reading(log[j]) > n
  {
    var before := log[..|log| - 1];
    if Reading(log[|log| - 1]) <= n {
      TopIsRead(before, n);
      var j :| 0 <= j < |before| && Reading(before[j]) > n;
      assert log[j] == before[j];
    }
  }

  /** Any choice among the bindings that could take their nonces is a run with the same log. */
  lemma {:induction false} ReplayRuns(log: Log, picked: seq<Binding>)
    requires Disciplined(log) && Picks(log, picked)
    ensures IsRun(Replay(log, picked)) && Run(Replay(log, picked)) == World(log, picked[0..Top(log)])
  {
    if log != [] {
      var before, last := log[..|log| - 1], log[|log| - 1];
      PicksShrink(log, picked);
      ReplayRuns(before, picked);
      TakenInTime(log, picked);
      ReplayStep(before, last, picked, Replay(before, picked), Top(before), Top(log));
      ReplayUnfolds(log, picked);
    }
  }

  lemma PicksShrink(log: Log, picked: seq<Binding>)
    requires log != [] && Picks(log, picked)
    ensures Picks(log[..|log| - 1], picked)
  {
    forall n | 0 <= n < Top(log[..|log| - 1]) ensures CouldTake(log[..|log| - 1], picked[n], n) {
      CouldTakeShrinks(log, picked[n], n);
    }
  }

  lemma ReplayUnfolds(log: Log, picked: seq<Binding>)
    requires log != [] && Top(log) <= |picked|
    ensures var before, last := log[..|log| - 1], log[|log| - 1];
            && log == before + [last]
            && Replay(log, picked) ==
               Replay(before, picked) + Executions(picked[Top(before)..Top(log)]) + [Bridge(last)]
  {
  }

  lemma ReplayStep(before: Log, last: Act, picked: seq<Binding>, steps: seq<Step>, a: nat, b: nat)
    requires TriedFor(before, picked, a, b) && IsRun(steps) && Run(steps) == World(before, picked[0..a])
    requires MayFollow(before, last) && Reading(last) <= b
    ensures var all := steps + Executions(picked[a..b]) + [Bridge(last)];
            IsRun(all) && Run(all) == World(before + [last], picked[0..b])
  {
    SliceSplit(picked, 0, a, b);
    ExecutionsThenEntry(steps, before, picked[0..a], picked[a..b], picked[0..b], last);
  }

  lemma ExecutionsThenEntry(
    steps: seq<Step>, log: Log, executed: seq<Binding>, taken: seq<Binding>, all: seq<Binding>, a: Act)
    requires IsRun(steps) && Run(steps) == World(log, executed) && all == executed + taken
    requires forall k :: 0 <= k < |taken| ==> Tried(taken[k], |executed| + k) in log
    requires MayFollow(log, a) && Reading(a) <= |all|
    ensures IsRun(steps + Executions(taken) + [Bridge(a)])
    ensures Run(steps + Executions(taken) + [Bridge(a)]) == World(log + [a], all)
  {
    ExecutionsRun(steps, log, executed, taken);
    OneMoreEntry(steps + Executions(taken), log, all, a);
  }

  /** The bindings picked for the nonces from `a` to `b` are tried at them in the log. */
  ghost predicate TriedFor(log: Log, picked: seq<Binding>, a: nat, b: nat)
  {
    a <= b <= |picked| && forall n :: a <= n < b ==> Tried(picked[n], n) in log
  }

  lemma TakenInTime(log: Log, picked: seq<Binding>)
    requires log != [] && Picks(log, picked)
    ensures TriedFor(log[..|log| - 1], picked, Top(log[..|log| - 1]), Top(log))
    ensures Reading(log[|log| - 1]) <= Top(log)
  {
    var before := log[..|log| - 1];
    forall n | Top(before) <= n < Top(log) ensures Tried(picked[n], n) in before {
      TriedInTime(log, picked[n], n);
    }
  }

  lemma OneMoreEntry(steps: seq<Step>, log: Log, executed: seq<Binding>, a: Act)
    requires IsRun(steps) && Run(steps) == World(log, executed)
    requires MayFollow(log, a) && Reading(a) <= |executed|
    ensures IsRun(steps + [Bridge(a)]) && Run(steps + [Bridge(a)]) == World(log + [a], executed)
  {
    RunSnoc(steps, Bridge(a));
  }

  /** The chain did not take the recorded binding at its nonce. */
  ghost predicate WrongIn(w: World, a: Act)
    requires a.Recorded?
  {
    a.nonce < |w.executed| && w.executed[a.nonce] != a.binding
  }

  ghost predicate SomeRunWrong(log: Log, a: Act)
    requires a.Recorded?
  {
    exists steps :: IsRun(steps) && Run(steps).log == log && WrongIn(Run(steps), a)
  }

  /**
   A record can be wrong, in some run that the bridge cannot tell from its own, exactly when another binding
   was tried at its nonce before any reading showed that nonce as taken. The bridge can check this in its log.
   */
  lemma WrongRecordIff(steps: seq<Step>, a: Act)
    requires IsRun(steps) && a in Run(steps).log && a.Recorded?
    ensures SomeRunWrong(Run(steps).log, a) <==> exists c :: c != a.binding && CouldTake(Run(steps).log, c, a.nonce)
  {
    var log := Run(steps).log;
    if SomeRunWrong(log, a) {
      var other :| IsRun(other) && Run(other).log == log && WrongIn(Run(other), a);
      RunFounded(other);
      assert CouldTake(log, Run(other).executed[a.nonce], a.nonce);
    }
    if c :| c != a.binding && CouldTake(log, c, a.nonce) {
      OtherTakesIt(steps, a, c);
    }
  }

  lemma OtherTakesIt(steps: seq<Step>, a: Act, c: Binding)
    requires IsRun(steps) && a in Run(steps).log && a.Recorded?
    requires c != a.binding && CouldTake(Run(steps).log, c, a.nonce)
    ensures SomeRunWrong(Run(steps).log, a)
  {
    var log, executed := Run(steps).log, Run(steps).executed;
    RunFacts(steps);
    RunFounded(steps);
    assert a.nonce < a.seen <= |executed|;
    var picked := executed[a.nonce := c];
    ReplayRuns(log, picked);
    ReadBelowTop(log, a);
    var other := Replay(log, picked);
    assert Run(other).executed[a.nonce] == c;
    assert IsRun(other) && Run(other).log == log && WrongIn(Run(other), a);
  }

  lemma ReadBelowTop(log: Log, a: Act)
    requires a in log
    ensures Reading(a) <= Top(log)
  {
    var i :| 0 <= i < |log| && log[i] == a;
    assert Reading(log[i]) <= Top(log);
  }

  /** No recorded nonce could have been taken by another binding. */
  ghost predicate SafeRecords(log: Log)
  {
    forall a, c | a in log && a.Recorded? && CouldTake(log, c, a.nonce) :: c == a.binding
  }

  ghost predicate RecordsRight(w: World)
  {
    forall a | a in w.log && a.Recorded? :: a.nonce < |w.executed| && w.executed[a.nonce] == a.binding
  }

  /** Every record is right in every run with this log exactly when the log itself shows it. */
  lemma RecordsRightIff(steps: seq<Step>)
    requires IsRun(steps)
    ensures (forall other | IsRun(other) && Run(other).log == Run(steps).log :: RecordsRight(Run(other))) <==>
            SafeRecords(Run(steps).log)
  {
    var log := Run(steps).log;
    if SafeRecords(log) {
      forall other | IsRun(other) && Run(other).log == log ensures RecordsRight(Run(other)) {
        SafeIsRight(other);
      }
    } else {
      var other := UnsafeIsWrong(steps);
    }
  }

  lemma UnsafeIsWrong(steps: seq<Step>) returns (other: seq<Step>)
    requires IsRun(steps) && !SafeRecords(Run(steps).log)
    ensures IsRun(other) && Run(other).log == Run(steps).log && !RecordsRight(Run(other))
  {
    var log := Run(steps).log;
    var a, c :| a in log && a.Recorded? && CouldTake(log, c, a.nonce) && c != a.binding;
    WrongRecordIff(steps, a);
    other :| IsRun(other) && Run(other).log == log && WrongIn(Run(other), a);
    assert a in Run(other).log;
  }

  lemma SafeIsRight(steps: seq<Step>)
    requires IsRun(steps) && SafeRecords(Run(steps).log)
    ensures RecordsRight(Run(steps))
  {
    RunFacts(steps);
    RunFounded(steps);
  }

  /**
   No ghost anchors: when reads do not go back, different bindings never share a nonce, and every
   binding recorded at a nonce is the one its executed transaction carries.
   */
  lemma NoGhostAnchors(steps: seq<Step>)
    requires IsRun(steps) && ReadsForward(Run(steps).log)
    ensures var w := Run(steps);
            && (forall b, c, n | Tried(b, n) in w.log && Tried(c, n) in w.log :: b == c)
            && SafeRecords(w.log) && RecordsRight(w)
  {
    var w := Run(steps);
    RunFacts(steps);
    ForwardReadsSeparate(w.log);
    forall b, c, n | Tried(b, n) in w.log && Tried(c, n) in w.log ensures b == c {
      OneBindingPerNonce(w.log, b, c, n);
    }
    SafeIsRight(steps);
  }

  lemma OneBindingPerNonce(log: Log, b: Binding, c: Binding, n: nat)
    requires Separated(log) && Tried(b, n) in log && Tried(c, n) in log
    ensures b == c
  {
    var i :| 0 <= i < |log| && log[i] == Tried(b, n);
    var j :| 0 <= j < |log| && log[j] == Tried(c, n);
  }

  /** What the state file says about a binding is what the chain executed, as long as the log shows no doubt. */
  lemma AnchoredIsExecuted(bridge: Anchoring, rows: seq<Binding>, steps: seq<Step>, b: Binding)
    requires bridge.Valid(rows) && b in bridge.anchored
    requires IsRun(steps) && Run(steps).log == bridge.log && SafeRecords(bridge.log)
    ensures bridge.anchored[b] < |Run(steps).executed| && Run(steps).executed[bridge.anchored[b]] == b
  {
    SafeIsRight(steps);
    var seen :| Recorded(b, bridge.anchored[b], seen) in bridge.log;
  }

  // ----- what goes wrong when reads go back

  /** Reads that stay at or above the last confirmed nonce, without being monotone in between. */
  ghost predicate ReadsAboveConfirmed(log: Log)
  {
    forall i, j | 0 <= i < j < |log| && log[i].Recorded? && log[j].Tried? :: log[i].seen <= log[j].nonce
  }

  function GhostRun(): seq<Step>
  {
    [
      Bridge(Tried("a", 0)),
      Execute("a"),
      Bridge(Tried("a", 1)),
      Bridge(Tried("a", 0)),
      Bridge(Recorded("a", 0, 1)),
      Bridge(Tried("b", 1)),
      Execute("a"),
      Bridge(Recorded("b", 1, 2))
    ]
  }

  /**
   Staying above the last confirmed nonce is not enough: a first attempt times out although it was
   executed, a second one is left waiting at the next nonce, a third one reads the old nonce and is
   confirmed at once, and the next binding is then recorded at the nonce that the waiting one takes.
   */
  lemma AboveConfirmedIsNotEnough()
    ensures IsRun(GhostRun()) && ReadsAboveConfirmed(Run(GhostRun()).log)
    ensures var w := Run(GhostRun());
            Recorded("b", 1, 2) in w.log && w.executed[1] == "a"
  {
    GhostUpTo(8);
    assert GhostRun()[..8] == GhostRun();
    GhostEnd();
  }

  lemma {:induction false} GhostUpTo(k: nat)
    requires k <= 8
    ensures Run(GhostRun()[..k]) == GhostWorld(k) && IsRun(GhostRun()[..k])
  {
    if k == 0 {
      assert GhostRun()[..0] == [];
    } else {
      GhostUpTo(k - 1);
      GhostPrefix(k - 1);
    }
  }

  lemma GhostEnd()
    ensures ReadsAboveConfirmed(GhostWorld(8).log)
    ensures Recorded("b", 1, 2) in GhostWorld(8).log && GhostWorld(8).executed[1] == "a"
  {
    assert GhostWorld(8).log[5] == Recorded("b", 1, 2);
  }

  ghost function GhostWorld(k: nat): World
    requires k <= 8
  {
    var log := [Tried("a", 0), Tried("a", 1), Tried("a", 0), Recorded("a", 0, 1), Tried("b", 1), Recorded("b", 1, 2)];
    if k == 0 then World([], [])
    else if k == 1 then World(log[..1], [])
    else if k <= 6 then World(log[..k - 1], ["a"])
    else World(log[..k - 2], ["a", "a"])
  }

  lemma GhostPrefix(k: nat)
    requires k < 8
    requires Run(GhostRun()[..k]) == GhostWorld(k) && IsRun(GhostRun()[..k])
    ensures Run(GhostRun()[..k + 1]) == GhostWorld(k + 1) && IsRun(GhostRun()[..k + 1])
  {
    var steps, next := GhostRun()[..k], GhostRun()[..k + 1];
    assert next[..|next| - 1] == steps && next[|next| - 1] == GhostRun()[k];
    GhostStep(k);
  }

  lemma GhostStep(k: nat)
    requires k < 8
    ensures CanStep(GhostWorld(k), GhostRun()[k]) && After(GhostWorld(k), GhostRun()[k]) == GhostWorld(k + 1)
  {
    if k < 4 {
      EarlyGhostStep(k);
    } else {
      LateGhostStep(k);
    }
  }

  lemma EarlyGhostStep(k: nat)
    requires k < 4
    ensures CanStep(GhostWorld(k), GhostRun()[k]) && After(GhostWorld(k), GhostRun()[k]) == GhostWorld(k + 1)
  {
    assert k == 1 ==> GhostWorld(k).log[0] == Tried("a", 0);
    assert Done([]) == {};
  }

  lemma LateGhostStep(k: nat)
    requires 4 <= k < 8
    ensures CanStep(GhostWorld(k), GhostRun()[k]) && After(GhostWorld(k), GhostRun()[k]) == GhostWorld(k + 1)
  {
    assert k == 5 ==> "b" !in Done(GhostWorld(k).log);
    assert k == 6 ==> GhostWorld(k).log[1] == Tried("a", 1);
  }
}
