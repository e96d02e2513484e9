/** Greedy, largest-first choice of the notes that pay for a transfer. Notes are spent whole. */
module CoinSelection {
  import opened Seqs

  datatype Note = Note(commitment: string, amount: nat, proof: string, spendable: bool)

  function Sum(notes: seq<Note>): nat
  {
    if notes == [] then 0 else notes[0].amount + Sum(notes[1..])
  }

  lemma {:induction false} SumConcat(a: seq<Note>, b: seq<Note>)
    ensures Sum(a + b) == Sum(a) + Sum(b)
  {
    if a == [] {
      assert a + b == b;
    } else {
      SumConcat(a[1..], b);
      assert (a + b)[1..] == a[1..] + b;
    }
  }

  predicate Spendable(n: Note)
  {
    n.spendable
  }

  // ----- the selection order

  function TextBefore(a: string, b: string): bool
  {
    if a == "" then true
    else if b == "" then false
    else a[0] < b[0] || (a[0] == b[0] && TextBefore(a[1..], b[1..]))
  }

  /** Larger amounts first, ties by commitment. */
  predicate Before(a: Note, b: Note)
  {
    a.amount > b.amount || (a.amount == b.amount && TextBefore(a.commitment, b.commitment))
  }

  function InsertNote(n: Note, sorted: seq<Note>): (r: seq<Note>)
    ensures multiset(r) == multiset(sorted) + multiset{n}
  {
    if sorted == [] || Before(n, sorted[0]) then [n] + sorted
    else
      assert sorted == [sorted[0]] + sorted[1..];
      [sorted[0]] + InsertNote(n, sorted[1..])
  }

  function Sorted(notes: seq<Note>): (r: seq<Note>)
    ensures multiset(r) == multiset(notes)
  {
    if notes == [] then []
    else
      assert notes == [notes[0]] + notes[1..];
      InsertNote(notes[0], Sorted(notes[1..]))
  }

  /** Plain text order: equal up to some place, and there the first text ends or has the smaller character. */
  lemma {:induction false} TextBeforeMeans(a: string, b: string)
    ensures TextBefore(a, b) <==>
            exists k :: 0 <= k <= |a| && k <= |b| && a[..k] == b[..k] && (k == |a| || (k < |b| && a[k] < b[k]))
  {
    if a == "" {
      assert a[..0] == b[..0];
    } else if b != "" && a[0] == b[0] {
      TextBeforeMeans(a[1..], b[1..]);
      assert a == [a[0]] + a[1..] && b == [b[0]] + b[1..];
      if TextBefore(a, b) {
        var k :| 0 <= k <= |a[1..]| && k <= |b[1..]| && a[1..][..k] == b[1..][..k]
                 && (k == |a[1..]| || (k < |b[1..]| && a[1..][k] < b[1..][k]));
        assert a[..k + 1] == [a[0]] + a[1..][..k] && b[..k + 1] == [b[0]] + b[1..][..k];
      }
      if k :| 0 <= k <= |a| && k <= |b| && a[..k] == b[..k] && (k == |a| || (k < |b| && a[k] < b[k])) {
        assert k > 0;
        assert a[1..][..k - 1] == a[..k][1..] && b[1..][..k - 1] == b[..k][1..];
      }
    } else if b != "" {
      assert a[..0] == b[..0];
      if k :| 0 < k <= |a| && k <= |b| && a[..k] == b[..k] {
        assert a[..k][0] == a[0] && b[..k][0] == b[0];
      }
    }
  }

  lemma {:induction false} TextOrderTotal(a: string, b: string)
    ensures TextBefore(a, b) || TextBefore(b, a)
  {
    if a != "" && b != "" {
      TextOrderTotal(a[1..], b[1..]);
    }
  }

  lemma {:induction false} TextOrderTransitive(a: string, b: string, c: string)
    requires TextBefore(a, b) && TextBefore(b, c)
    ensures TextBefore(a, c)
  {
    if a != "" && b != "" && c != "" && a[0] == b[0] == c[0] {
      TextOrderTransitive(a[1..], b[1..], c[1..]);
    }
  }

  lemma BeforeIsTotalOrder(a: Note, b: Note, c: Note)
    ensures Before(a, b) || Before(b, a)
    ensures Before(a, b) && Before(b, c) ==> Before(a, c)
  {
    TextOrderTotal(a.commitment, b.commitment);
    if TextBefore(a.commitment, b.commitment) && TextBefore(b.commitment, c.commitment) {
      TextOrderTransitive(a.commitment, b.commitment, c.commitment);
    }
  }

  ghost predicate InOrder(notes: seq<Note>)
  {
    forall i, j :: 0 <= i < j < |notes| ==> Before(notes[i], notes[j])
  }

  ghost predicate NotAfter(n: Note, notes: seq<Note>)
  {
    forall i :: 0 <= i < |notes| ==> Before(n, notes[i])
  }

  lemma ConsInOrder(n: Note, rest: seq<Note>)
    requires InOrder(rest) && NotAfter(n, rest)
    ensures InOrder([n] + rest)
  {
    var r := [n] + rest;
    forall i, j | 0 <= i < j < |r| ensures Before(r[i], r[j]) {
      assert r[j] == rest[j - 1];
    }
  }

  lemma HeadFirst(n: Note, sorted: seq<Note>)
    requires sorted != [] && InOrder(sorted)
    ensures Before(n, sorted[0]) ==> NotAfter(n, sorted)
    ensures InOrder(sorted[1..]) && NotAfter(sorted[0], sorted[1..])
  {
    if Before(n, sorted[0]) {
      forall k | 0 <= k < |sorted| ensures Before(n, sorted[k]) {
        BeforeIsTotalOrder(n, sorted[0], sorted[k]);
      }
    }
  }

  lemma InsertedNotBefore(head: Note, n: Note, tail: seq<Note>)
    requires Before(head, n) && NotAfter(head, tail)
    ensures NotAfter(head, InsertNote(n, tail))
  {
    var rest := InsertNote(n, tail);
    forall i | 0 <= i < |rest| ensures Before(head, rest[i]) {
      assert rest[i] in multiset(rest);
      assert rest[i] == n || rest[i] in tail;
    }
  }

  lemma {:induction false} InsertKeepsOrder(n: Note, sorted: seq<Note>)
    requires InOrder(sorted)
    ensures InOrder(InsertNote(n, sorted))
  {
    if sorted != [] {
      HeadFirst(n, sorted);
      if Before(n, sorted[0]) {
        ConsInOrder(n, sorted);
      } else {
        BeforeIsTotalOrder(n, sorted[0], n);
        InsertKeepsOrder(n, sorted[1..]);
        InsertedNotBefore(sorted[0], n, sorted[1..]);
        ConsInOrder(sorted[0], InsertNote(n, sorted[1..]));
      }
    }
  }

  lemma {:induction false} SortedIsOrdered(notes: seq<Note>)
    ensures InOrder(Sorted(notes))
  {
    if notes != [] {
      SortedIsOrdered(notes[1..]);
      InsertKeepsOrder(notes[0], Sorted(notes[1..]));
    }
  }

  lemma SortedIsDescending(notes: seq<Note>)
    ensures Descending(Sorted(notes))
  {
    SortedIsOrdered(notes);
    var r := Sorted(notes);
    forall i, j | 0 <= i <= j < |r| ensures r[i].amount >= r[j].amount {
      assert i < j ==> Before(r[i], r[j]);
    }
  }

  /** Of two listed notes the first is worth more, or as much with a commitment that does not come later. */
  lemma SelectionOrder(notes: seq<Note>, i: nat, j: nat)
    requires i < j < |Sorted(notes)|
    ensures var a, b := Sorted(notes)[i], Sorted(notes)[j];
            || a.amount > b.amount
            || (a.amount == b.amount
                && exists k :: 0 <= k <= |a.commitment| && k <= |b.commitment|
                               && a.commitment[..k] == b.commitment[..k]
                               && (k == |a.commitment| || (k < |b.commitment| && a.commitment[k] < b.commitment[k])))
  {
    SortedIsOrdered(notes);
    var a, b := Sorted(notes)[i], Sorted(notes)[j];
    assert Before(a, b);
    TextBeforeMeans(a.commitment, b.commitment);
  }

  ghost predicate Descending(notes: seq<Note>)
  {
    forall i, j :: 0 <= i <= j < |notes| ==> notes[i].amount >= notes[j].amount
  }

  /** How many notes of an ordered list are taken until the target is reached. */
  function Needed(ordered: seq<Note>, target: nat): (k: nat)
    ensures k <= |ordered|
  {
    if ordered == [] || target == 0 then 0
    else 1 + Needed(ordered[1..], if ordered[0].amount >= target then 0 else target - ordered[0].amount)
  }

  function Missing(target: nat, total: nat): nat
  {
    if total >= target then 0 else target - total
  }

  lemma OneMoreNote(ordered: seq<Note>, target: nat, k: nat)
    requires k < |ordered| && Sum(ordered[..k]) < target
    ensures ordered[..k + 1] == ordered[..k] + [ordered[k]]
    ensures Sum(ordered[..k + 1]) == Sum(ordered[..k]) + ordered[k].amount
    ensures Needed(ordered[k..], Missing(target, Sum(ordered[..k]))) ==
            1 + Needed(ordered[k + 1..], Missing(target, Sum(ordered[..k + 1])))
  {
    assert ordered[..k + 1] == ordered[..k] + [ordered[k]];
    SumConcat(ordered[..k], [ordered[k]]);
    assert ordered[k..][1..] == ordered[k + 1..];
  }

  function Selection(notes: seq<Note>, target: nat): seq<Note>
  {
    var ordered := Sorted(Filter(Spendable, notes));
    ordered[..Needed(ordered, target)]
  }

  method SelectNotes(notes: seq<Note>, target: nat) returns (selected: seq<Note>, totalIn: nat, covered: bool)
    ensures selected == Selection(notes, target)
    ensures totalIn == Sum(selected) && (covered <==> totalIn >= target)
  {
    var sorted := Sorted(Filter(Spendable, notes));
    selected, totalIn := [], 0;
    var k := 0;
    while k < |sorted| && totalIn < target
      invariant k <= |sorted| && selected == sorted[..k] && totalIn == Sum(selected)
      invariant Needed(sorted, target) == k + Needed(sorted[k..], Missing(target, totalIn))
    {
      OneMoreNote(sorted, target, k);
      selected := selected + [sorted[k]];
      totalIn := totalIn + sorted[k].amount;
      k := k + 1;
    }
    covered := totalIn >= target;
  }

  // ----- when the target is reached

  lemma {:induction false} NeededReaches(ordered: seq<Note>, target: nat)
    ensures Sum(ordered) >= target ==> Sum(ordered[..Needed(ordered, target)]) >= target
    ensures Sum(ordered) < target ==> Needed(ordered, target) == |ordered|
    ensures forall k: nat :: k < Needed(ordered, target) ==> Sum(ordered[..k]) < target
  {
    if ordered != [] && target > 0 {
      var rest := if ordered[0].amount >= target then 0 else target - ordered[0].amount;
      NeededReaches(ordered[1..], rest);
      var k := Needed(ordered[1..], rest);
      PrefixSum(ordered, k);
      forall j: nat | j < k + 1 ensures Sum(ordered[..j]) < target {
        if j > 0 {
          PrefixSum(ordered, j - 1);
        }
      }
    }
  }

  lemma PrefixSum(ordered: seq<Note>, k: nat)
    requires ordered != [] && k + 1 <= |ordered|
    ensures Sum(ordered[..k + 1]) == ordered[0].amount + Sum(ordered[1..][..k])
  {
    assert ordered[..k + 1][0] == ordered[0] && ordered[..k + 1][1..] == ordered[1..][..k];
  }

  lemma {:induction false} SumOfMultiset(a: seq<Note>, b: seq<Note>)
    requires multiset(a) == multiset(b)
    ensures Sum(a) == Sum(b) && |a| == |b|
  {
    if a == [] {
      assert |multiset(a)| == |multiset(b)|;
    } else {
      assert a[0] in multiset(b);
      var i :| 0 <= i < |b| && b[i] == a[0];
      WithoutSum(b, i);
      WithoutElements(b, i);
      HeadAndTail(a);
      SumOfMultiset(a[1..], b[..i] + b[i + 1..]);
    }
  }

  lemma WithoutSum(s: seq<Note>, i: nat)
    requires i < |s|
    ensures Sum(s) == s[i].amount + Sum(s[..i] + s[i + 1..])
  {
    var tail := [s[i]] + s[i + 1..];
    assert s == s[..i] + tail && tail[1..] == s[i + 1..];
    SumConcat(s[..i], tail);
    SumConcat(s[..i], s[i + 1..]);
  }

  lemma WithoutElements(s: seq<Note>, i: nat)
    requires i < |s|
    ensures multiset(s[..i] + s[i + 1..]) == multiset(s) - multiset{s[i]}
  {
    assert s == s[..i] + ([s[i]] + s[i + 1..]);
  }

  /** The exchange argument: no choice of `k` notes is worth more than the first `k` in descending order. */
  lemma {:induction false} LargestFirstIsBest(ordered: seq<Note>, chosen: seq<Note>)
    requires Descending(ordered) && multiset(chosen) <= multiset(ordered)
    ensures |chosen| <= |ordered| && Sum(chosen) <= Sum(ordered[..|chosen|])
    decreases |ordered|
  {
    MultisetSize(multiset(chosen), multiset(ordered));
    if chosen != [] {
      if ordered[0] in chosen {
        var i :| 0 <= i < |chosen| && chosen[i] == ordered[0];
        RestFits(ordered, chosen, i);
        LargestFirstIsBest(ordered[1..], chosen[..i] + chosen[i + 1..]);
        HeadBack(ordered, chosen, i, |chosen| - 1);
      } else {
        NotHead(ordered, chosen);
        LargestFirstIsBest(ordered[1..], chosen);
        ShiftedPrefixIsLess(ordered, |chosen|);
      }
    }
  }

  lemma HeadBack(ordered: seq<Note>, chosen: seq<Note>, i: nat, k: nat)
    requires i < |chosen| == k + 1 <= |ordered| && chosen[i] == ordered[0]
    requires Sum(chosen[..i] + chosen[i + 1..]) <= Sum(ordered[1..][..k])
    ensures Sum(chosen) <= Sum(ordered[..k + 1])
  {
    WithoutSum(chosen, i);
    PrefixSum(ordered, k);
  }

  lemma RestFits(ordered: seq<Note>, chosen: seq<Note>, i: nat)
    requires multiset(chosen) <= multiset(ordered) && ordered != [] && i < |chosen| && chosen[i] == ordered[0]
    ensures multiset(chosen[..i] + chosen[i + 1..]) <= multiset(ordered[1..])
    ensures Descending(ordered) ==> Descending(ordered[1..])
  {
    WithoutElements(chosen, i);
    HeadAndTail(ordered);
  }

  lemma NotHead(ordered: seq<Note>, chosen: seq<Note>)
    requires ordered != [] && multiset(chosen) <= multiset(ordered) && ordered[0] !in chosen
    ensures multiset(chosen) <= multiset(ordered[1..])
    ensures Descending(ordered) ==> Descending(ordered[1..])
  {
    HeadAndTail(ordered);
  }

  lemma HeadAndTail(s: seq<Note>)
    requires s != []
    ensures multiset(s[1..]) == multiset(s) - multiset{s[0]}
    ensures Descending(s) ==> Descending(s[1..])
  {
    assert s == [s[0]] + s[1..];
  }

  lemma MultisetSize(a: multiset<Note>, b: multiset<Note>)
    requires a <= b
    ensures |a| <= |b|
  {
    assert b == a + (b - a);
  }

  lemma {:induction false} ShiftedPrefixIsLess(ordered: seq<Note>, k: nat)
    requires Descending(ordered) && k + 1 <= |ordered|
    ensures Sum(ordered[1..][..k]) <= Sum(ordered[..k])
  {
    if k > 0 {
      ShiftedPrefixIsLess(ordered, k - 1);
      assert ordered[1..][..k] == ordered[1..][..k - 1] + [ordered[k]];
      assert ordered[..k] == ordered[..k - 1] + [ordered[k - 1]];
      SumConcat(ordered[1..][..k - 1], [ordered[k]]);
      SumConcat(ordered[..k - 1], [ordered[k - 1]]);
    }
  }

  /** A way to pay: spendable notes, each used at most once, worth at least the target. */
  ghost predicate Pays(notes: seq<Note>, chosen: seq<Note>, target: nat)
  {
    multiset(chosen) <= multiset(Filter(Spendable, notes)) && Sum(chosen) >= target
  }

  lemma SelectionIsAChoice(notes: seq<Note>, target: nat)
    ensures multiset(Selection(notes, target)) <= multiset(Filter(Spendable, notes))
    ensures Descending(Selection(notes, target))
  {
    var ordered := Sorted(Filter(Spendable, notes));
    SortedIsDescending(Filter(Spendable, notes));
    var k := Needed(ordered, target);
    assert ordered == ordered[..k] + ordered[k..];
  }

  /** The selection reaches the target exactly when all spendable notes together do. */
  lemma CoversIffTotalCovers(notes: seq<Note>, target: nat)
    ensures Sum(Selection(notes, target)) >= target <==> Sum(Filter(Spendable, notes)) >= target
  {
    var spendable := Filter(Spendable, notes);
    var ordered := Sorted(spendable);
    SumOfMultiset(ordered, spendable);
    NeededReaches(ordered, target);
    if Sum(spendable) < target {
      assert ordered[..|ordered|] == ordered;
    }
  }

  /** No other way to pay uses fewer notes. */
  lemma FewestNotes(notes: seq<Note>, chosen: seq<Note>, target: nat)
    requires Pays(notes, chosen, target)
    ensures |Selection(notes, target)| <= |chosen|
    ensures Sum(Selection(notes, target)) >= target
  {
    var ordered := Sorted(Filter(Spendable, notes));
    SortedIsDescending(Filter(Spendable, notes));
    LargestFirstIsBest(ordered, chosen);
    PrefixNeeded(ordered, target, |chosen|);
  }

  lemma PrefixNeeded(ordered: seq<Note>, target: nat, k: nat)
    requires k <= |ordered| && Sum(ordered[..k]) >= target
    ensures Needed(ordered, target) <= k && Sum(ordered[..Needed(ordered, target)]) >= target
  {
    NeededReaches(ordered, target);
    assert ordered == ordered[..k] + ordered[k..];
    SumConcat(ordered[..k], ordered[k..]);
  }

  /** With a limit on the number of inputs, the greedy choice succeeds exactly when any choice does. */
  lemma LimitedIffAnyLimited(notes: seq<Note>, target: nat, limit: nat)
    ensures (|Selection(notes, target)| <= limit && Sum(Selection(notes, target)) >= target) <==>
            exists chosen :: Pays(notes, chosen, target) && |chosen| <= limit
  {
    if |Selection(notes, target)| <= limit && Sum(Selection(notes, target)) >= target {
      SelectionIsAChoice(notes, target);
      assert Pays(notes, Selection(notes, target), target);
    }
    if chosen :| Pays(notes, chosen, target) && |chosen| <= limit {
      FewestNotes(notes, chosen, target);
    }
  }

  /** What comes back is less than any note that went in: no selected note is superfluous. */
  lemma ChangeBelowEveryNote(notes: seq<Note>, target: nat, n: Note)
    requires Sum(Selection(notes, target)) >= target && n in Selection(notes, target)
    ensures Sum(Selection(notes, target)) - target < n.amount
  {
    SelectionIsAChoice(notes, target);
    LastIsNeeded(Sorted(Filter(Spendable, notes)), target);
    var selected := Selection(notes, target);
    var i :| 0 <= i < |selected| && selected[i] == n;
    assert selected[i].amount >= selected[|selected| - 1].amount;
  }

  lemma LastIsNeeded(ordered: seq<Note>, target: nat)
    requires Needed(ordered, target) > 0
    ensures Sum(ordered[..Needed(ordered, target)]) < target + ordered[Needed(ordered, target) - 1].amount
  {
    var k := Needed(ordered, target) - 1;
    NeededReaches(ordered, target);
    assert ordered[..k + 1] == ordered[..k] + [ordered[k]];
    SumConcat(ordered[..k], [ordered[k]]);
  }
}
