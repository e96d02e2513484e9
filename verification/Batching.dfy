/** Greedy packing of pending transactions into size-bounded vertices. */
module Batching {
  import opened Seqs

  const USIZE_MAX: nat := 0xFFFF_FFFF_FFFF_FFFF
  const VERTEX_HEADER_BUDGET: nat := 256

  /** `size` is the serialised length; a transaction that cannot be serialised counts as `USIZE_MAX`. */
  datatype Transaction = Transaction(id: nat, size: nat)

  function SaturatingAdd(a: nat, b: nat): nat
  {
    if a + b > USIZE_MAX then USIZE_MAX else a + b
  }

  /** What the running size shows for a true total. */
  function Saturated(total: nat): nat
  {
    if total > USIZE_MAX then USIZE_MAX else total
  }

  lemma SaturatedStep(total: nat, size: nat, limit: nat)
    requires limit < USIZE_MAX
    ensures SaturatingAdd(Saturated(total), size) == Saturated(total + size)
    ensures Saturated(total + size) > limit <==> total + size > limit
  {
  }

  function Limit(maxSize: nat): nat
  {
    if maxSize >= VERTEX_HEADER_BUDGET then maxSize - VERTEX_HEADER_BUDGET else 0
  }

  ghost function Total(txs: seq<Transaction>): nat
  {
    if txs == [] then 0 else Total(txs[..|txs| - 1]) + txs[|txs| - 1].size
  }

  ghost function Concat(batches: seq<seq<Transaction>>): seq<Transaction>
  {
    if batches == [] then [] else batches[0] + Concat(batches[1..])
  }

  /** A batch the packer may emit: not empty, and within the limit or a single transaction. */
  ghost predicate Fits(batch: seq<Transaction>, limit: nat)
  {
    batch != [] && (Total(batch) <= limit || |batch| == 1)
  }

  /** A batch fits with the header's 256 bytes inside the maximum; a single transaction always goes alone. */
  lemma FitsMeans(batch: seq<Transaction>, maxSize: nat)
    ensures Fits(batch, Limit(maxSize)) <==>
            batch != [] && (|batch| == 1 || Total(batch) == 0 || Total(batch) + 256 <= maxSize)
  {
  }

  /** Every batch is a single transaction, or empty of bytes, or leaves the header's 256 bytes. */
  ghost predicate AllFit(batches: seq<seq<Transaction>>, maxSize: nat)
  {
    forall i :: 0 <= i < |batches| ==>
      batches[i] != [] && (|batches[i]| == 1 || Total(batches[i]) == 0 || Total(batches[i]) + 256 <= maxSize)
  }

  lemma SplitMeans(txs: seq<Transaction>, batches: seq<seq<Transaction>>, maxSize: nat)
    ensures ValidSplit(txs, batches, Limit(maxSize)) <==> Concat(batches) == txs && AllFit(batches, maxSize)
  {
    forall i | 0 <= i < |batches| ensures Fits(batches[i], Limit(maxSize)) <==>
      batches[i] != [] && (|batches[i]| == 1 || Total(batches[i]) == 0 || Total(batches[i]) + 256 <= maxSize)
    {
      FitsMeans(batches[i], maxSize);
    }
  }

  ghost predicate ValidSplit(txs: seq<Transaction>, batches: seq<seq<Transaction>>, limit: nat)
  {
    Concat(batches) == txs && forall i :: 0 <= i < |batches| ==> Fits(batches[i], limit)
  }

  /** The state of the packer after `k` transactions. */
  ghost predicate Packing(
    txs: seq<Transaction>, batches: seq<seq<Transaction>>, current: seq<Transaction>, k: nat, limit: nat)
  {
    && k <= |txs|
    && Concat(batches) + current == txs[..k]
    && (forall i :: 0 <= i < |batches| ==> Fits(batches[i], limit))
    && (if current == [] then k == 0 && batches == [] else Fits(current, limit))
    && Maximal(txs, batches, limit)
  }

  method SplitTxsIntoBatches(txs: seq<Transaction>, maxSize: nat) returns (batches: seq<seq<Transaction>>)
    requires maxSize <= USIZE_MAX && forall tx :: tx in txs ==> tx.size <= USIZE_MAX
    ensures ValidSplit(txs, batches, Limit(maxSize))
    ensures forall other :: ValidSplit(txs, other, Limit(maxSize)) ==> |batches| <= |other|
    ensures batches == [] <==> txs == []
    ensures Concat(batches) == txs && AllFit(batches, maxSize)
  {
    var limit := if maxSize >= VERTEX_HEADER_BUDGET then maxSize - VERTEX_HEADER_BUDGET else 0;
    var current: seq<Transaction> := [];
    var currentSize: nat := 0;
    batches := [];
    for k := 0 to |txs|
      invariant Packing(txs, batches, current, k, limit) && currentSize == Saturated(Total(current))
    {
      var tx := txs[k];
      DecideStep(current, tx, currentSize, limit);
      if current != [] && SaturatingAdd(currentSize, tx.size) > limit {
        FlushKeepsPacking(txs, batches, current, k, limit);
        batches := batches + [current];
        current := [];
        currentSize := 0;
      } else {
        AppendKeepsPacking(txs, batches, current, k, limit);
      }
      current := current + [tx];
      currentSize := SaturatingAdd(currentSize, tx.size);
    }
    if current != [] {
      FinishPacking(txs, batches, current, limit);
      batches := batches + [current];
    }
    SplitMeans(txs, batches, maxSize);
  }

  /** The saturating sizes decide as the true totals would, and the running size stays right either way. */
  lemma DecideStep(current: seq<Transaction>, tx: Transaction, currentSize: nat, limit: nat)
    requires limit < USIZE_MAX && currentSize == Saturated(Total(current))
    ensures SaturatingAdd(currentSize, tx.size) > limit <==> Total(current + [tx]) > limit
    ensures SaturatingAdd(currentSize, tx.size) == Saturated(Total(current + [tx]))
    ensures SaturatingAdd(0, tx.size) == Saturated(Total([] + [tx]))
  {
    TotalSnoc(current, tx);
    TotalSnoc([], tx);
    SaturatedStep(Total(current), tx.size, limit);
    SaturatedStep(0, tx.size, limit);
  }

  lemma TotalSnoc(batch: seq<Transaction>, tx: Transaction)
    ensures Total(batch + [tx]) == Total(batch) + tx.size
  {
    assert (batch + [tx])[..|batch|] == batch;
  }

  lemma FlushKeepsPacking(
    txs: seq<Transaction>, batches: seq<seq<Transaction>>, current: seq<Transaction>, k: nat, limit: nat)
    requires Packing(txs, batches, current, k, limit) && k < |txs| && current != []
    requires Total(current + [txs[k]]) > limit
    ensures Packing(txs, batches + [current], [] + [txs[k]], k + 1, limit)
  {
    ConcatSnoc(batches, current);
    FullBatchIsMaximal(txs, batches, current, limit, k);
    assert txs[..k + 1] == txs[..k] + [txs[k]];
    assert [] + [txs[k]] == [txs[k]];
  }

  lemma AppendKeepsPacking(
    txs: seq<Transaction>, batches: seq<seq<Transaction>>, current: seq<Transaction>, k: nat, limit: nat)
    requires Packing(txs, batches, current, k, limit) && k < |txs|
    requires current != [] ==> Total(current + [txs[k]]) <= limit
    ensures Packing(txs, batches, current + [txs[k]], k + 1, limit)
  {
    assert txs[..k + 1] == txs[..k] + [txs[k]];
    assert Concat(batches) + (current + [txs[k]]) == (Concat(batches) + current) + [txs[k]];
  }

  lemma FinishPacking(txs: seq<Transaction>, batches: seq<seq<Transaction>>, current: seq<Transaction>, limit: nat)
    requires Packing(txs, batches, current, |txs|, limit) && current != []
    ensures ValidSplit(txs, batches + [current], limit)
    ensures forall other :: ValidSplit(txs, other, limit) ==> |batches + [current]| <= |other|
  {
    var all := batches + [current];
    ConcatSnoc(batches, current);
    assert txs[..|txs|] == txs;
    assert all[..|all| - 1] == batches;
    forall other | ValidSplit(txs, other, limit) ensures |all| <= |other| {
      MaximalIsMinimal(txs, all, other, limit);
    }
  }

  /** Each listed batch stops only because the next transaction would push it over the limit. */
  ghost predicate Maximal(txs: seq<Transaction>, batches: seq<seq<Transaction>>, limit: nat)
  {
    forall i :: 0 <= i < |batches| ==>
      var end := |Concat(batches[..i + 1])|;
      batches[i] != [] && end < |txs| && Total(batches[i] + [txs[end]]) > limit
  }

  lemma {:induction false} ConcatSnoc(batches: seq<seq<Transaction>>, batch: seq<Transaction>)
    ensures Concat(batches + [batch]) == Concat(batches) + batch
  {
    if batches == [] {
      assert [batch][1..] == [];
      assert [] + [batch] == [batch];
    } else {
      ConcatSnoc(batches[1..], batch);
      assert (batches + [batch])[1..] == batches[1..] + [batch];
      assert batches[0] + (Concat(batches[1..]) + batch) == (batches[0] + Concat(batches[1..])) + batch;
    }
  }

  lemma FullBatchIsMaximal(
    txs: seq<Transaction>, batches: seq<seq<Transaction>>, current: seq<Transaction>, limit: nat, k: nat)
    requires k < |txs| && Concat(batches) + current == txs[..k] && current != []
    requires Maximal(txs, batches, limit)
    requires Total(current + [txs[k]]) > limit
    ensures Maximal(txs, batches + [current], limit)
  {
    var grown := batches + [current];
    ConcatSnoc(batches, current);
    forall i | 0 <= i < |grown|
      ensures var end := |Concat(grown[..i + 1])|;
              grown[i] != [] && end < |txs| && Total(grown[i] + [txs[end]]) > limit
    {
      if i < |batches| {
        assert grown[..i + 1] == batches[..i + 1] && grown[i] == batches[i];
      } else {
        assert grown[..i + 1] == grown;
      }
    }
  }

  // ----- why no split is shorter

  lemma {:induction false} TotalSplit(a: seq<Transaction>, b: seq<Transaction>)
    ensures Total(a + b) == Total(a) + Total(b)
  {
    if b == [] {
      assert a + b == a;
    } else {
      var before := b[..|b| - 1];
      TotalSplit(a, before);
      assert (a + b)[..|a + b| - 1] == a + before;
      assert (a + b)[|a + b| - 1] == b[|b| - 1];
    }
  }

  lemma {:induction false} ConcatPrefix(batches: seq<seq<Transaction>>, i: nat)
    requires i < |batches|
    ensures Concat(batches[..i + 1]) == Concat(batches[..i]) + batches[i]
    ensures |Concat(batches[..i + 1])| <= |Concat(batches)|
    ensures Concat(batches[..i + 1]) == Concat(batches)[..|Concat(batches[..i + 1])|]
  {
    assert batches[..i + 1] == batches[..i] + [batches[i]];
    ConcatSnoc(batches[..i], batches[i]);
    ConcatSplit(batches, i + 1);
  }

  lemma {:induction false} ConcatSplit(batches: seq<seq<Transaction>>, n: nat)
    requires n <= |batches|
    ensures Concat(batches) == Concat(batches[..n]) + Concat(batches[n..])
  {
    if n == 0 {
      assert batches[0..] == batches && batches[..0] == [];
    } else {
      ConcatSplit(batches[1..], n - 1);
      assert batches[..n][1..] == batches[1..][..n - 1] && batches[1..][n - 1..] == batches[n..];
      assert batches[0] + (Concat(batches[1..][..n - 1]) + Concat(batches[n..]))
          == (batches[0] + Concat(batches[1..][..n - 1])) + Concat(batches[n..]);
    }
  }

  /** Greedy stays ahead: after `i` batches the packer has covered at least as much as any split in `i` batches. */
  lemma {:induction false} GreedyStaysAhead(
    txs: seq<Transaction>, batches: seq<seq<Transaction>>, other: seq<seq<Transaction>>, limit: nat, i: nat)
    requires batches != [] && Concat(batches) == txs && Maximal(txs, batches[..|batches| - 1], limit)
    requires ValidSplit(txs, other, limit)
    requires i <= |batches| - 1 && i <= |other|
    ensures |Concat(other[..i])| <= |Concat(batches[..i])|
  {
    if i > 0 {
      GreedyStaysAhead(txs, batches, other, limit, i - 1);
      ConcatPrefix(batches, i - 1);
      ConcatPrefix(other, i - 1);
      var start, mine, theirs := |Concat(batches[..i - 1])|, |Concat(batches[..i])|, |Concat(other[..i])|;
      assert batches[..|batches| - 1][..i] == batches[..i] && batches[..|batches| - 1][i - 1] == batches[i - 1];
      if theirs > mine {
        assert Fits(other[i - 1], limit);
        var begin := |Concat(other[..i - 1])|;
        assert txs[start..mine] == batches[i - 1] && txs[begin..theirs] == other[i - 1];
        BatchCannotSpan(txs, limit, begin, start, mine, theirs);
      }
    }
  }

  lemma MiddleWeighs(head: seq<Transaction>, middle: seq<Transaction>, tail: seq<Transaction>)
    ensures Total(head + (middle + tail)) >= Total(middle)
  {
    TotalSplit(head, middle + tail);
    TotalSplit(middle, tail);
  }

  lemma SpanSplit(txs: seq<Transaction>, begin: nat, start: nat, end: nat, stop: nat)
    requires begin <= start <= end < stop <= |txs|
    ensures txs[begin..stop] == txs[begin..start] + ((txs[start..end] + [txs[end]]) + txs[end + 1..stop])
  {
    SliceSplit(txs, start, end, stop);
    SliceSplit(txs, begin, start, stop);
  }

  /** A batch that starts no later and ends later than a maximal one is over the limit and not single. */
  lemma BatchCannotSpan(txs: seq<Transaction>, limit: nat, begin: nat, start: nat, end: nat, stop: nat)
    requires begin <= start < end < stop <= |txs|
    requires Total(txs[start..end] + [txs[end]]) > limit
    ensures !Fits(txs[begin..stop], limit)
  {
    SpanSplit(txs, begin, start, end, stop);
    MiddleWeighs(txs[begin..start], txs[start..end] + [txs[end]], txs[end + 1..stop]);
  }

  lemma MaximalIsMinimal(
    txs: seq<Transaction>, batches: seq<seq<Transaction>>, other: seq<seq<Transaction>>, limit: nat)
    requires batches != [] && Concat(batches) == txs && batches[|batches| - 1] != []
    requires Maximal(txs, batches[..|batches| - 1], limit)
    requires ValidSplit(txs, other, limit)
    ensures |batches| <= |other|
  {
    if |other| < |batches| {
      GreedyStaysAhead(txs, batches, other, limit, |other|);
      assert other[..|other|] == other;
      ConcatPrefix(batches, |batches| - 1);
      assert batches[..|batches|] == batches;
      ConcatShorter(batches, |other|);
    }
  }

  lemma ConcatShorter(batches: seq<seq<Transaction>>, n: nat)
    requires n < |batches| && batches[|batches| - 1] != []
    ensures |Concat(batches[..n])| < |Concat(batches)|
  {
    ConcatSplit(batches, n);
    var tail := batches[n..];
    ConcatSplit(tail, |tail| - 1);
    assert tail[|tail| - 1..] == [batches[|batches| - 1]];
    assert Concat([batches[|batches| - 1]]) == batches[|batches| - 1] by {
      assert [batches[|batches| - 1]][1..] == [];
    }
  }
}
