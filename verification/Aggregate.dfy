/** The aggregate root of a window of batch roots, over an uninterpreted hash. */
module Aggregate {
  import opened Bytes

  /** The modulus of the field, 2^251 + 17 * 2^192 + 1. */
  const PRIME: nat := 0x8000000_00000011_00000000_00000000_00000000_00000000_00000000_00000001

  type Root = s: seq<Byte> | |s| == 32 witness seq(32, i => 0)
  type Felt = f: nat | f < PRIME

  /** The hash of a list of field elements and the tag that starts the outer hash. */
  datatype Hasher = Hasher(hash: seq<Felt> -> Felt, domain: Felt)

  datatype Result = Ok(root: Root) | EmptyWindow

  function BigEndian(bytes: seq<Byte>): nat
  {
    if bytes == [] then 0 else BigEndian(bytes[..|bytes| - 1]) * 0x100 + bytes[|bytes| - 1] as int
  }

  /** The low `n` bytes of a number, big end first. */
  function ToBytes(value: nat, n: nat): (r: seq<Byte>)
    ensures |r| == n
  {
    if n == 0 then [] else ToBytes(value / 0x100, n - 1) + [value % 0x100]
  }

  function Power256(n: nat): nat
  {
    if n == 0 then 1 else Power256(n - 1) * 0x100
  }

  lemma {:induction false} BytesBelowPower(bytes: seq<Byte>)
    ensures BigEndian(bytes) < Power256(|bytes|)
  {
    if bytes != [] {
      BytesBelowPower(bytes[..|bytes| - 1]);
    }
  }

  lemma PowersAroundPrime()
    ensures Power256(16) <= PRIME <= Power256(32)
  {
    assert Power256(4) == 0x1_0000_0000;
    assert Power256(8) == 0x1_0000_0000_0000_0000;
    assert Power256(12) == 0x1_0000_0000_0000_0000_0000_0000;
    assert Power256(16) == 0x1_0000_0000_0000_0000_0000_0000_0000_0000;
    assert Power256(20) == Power256(16) * 0x1_0000_0000;
    assert Power256(24) == Power256(20) * 0x1_0000_0000;
    assert Power256(28) == Power256(24) * 0x1_0000_0000;
    assert Power256(32) == Power256(28) * 0x1_0000_0000;
  }

  /** Sixteen bytes are a field element as they stand: nothing is reduced. */
  function Half(bytes: seq<Byte>): Felt
    requires |bytes| == 16
  {
    BytesBelowPower(bytes);
    PowersAroundPrime();
    BigEndian(bytes)
  }

  function Halves(root: Root): (Felt, Felt)
  {
    (Half(root[..16]), Half(root[16..]))
  }

  /** Earlier bytes weigh more: the bytes of a concatenation are those of its front, shifted, and those of its back. */
  lemma {:induction false} BigEndianConcat(a: seq<Byte>, b: seq<Byte>)
    ensures BigEndian(a + b) == BigEndian(a) * Power256(|b|) + BigEndian(b)
    ensures |b| == 1 ==> BigEndian(b) == b[0] as int
  {
    if b == [] {
      assert a + b == a;
    } else {
      var front, last := b[..|b| - 1], b[|b| - 1] as int;
      BigEndianConcat(a, front);
      assert (a + b)[..|a + b| - 1] == a + front;
      Shifted(BigEndian(a), Power256(|front|), BigEndian(front), last);
      if |b| == 1 {
        assert front == [];
      }
    }
  }

  lemma Shifted(high: nat, power: nat, low: nat, last: nat)
    ensures (high * power + low) * 0x100 + last == high * (power * 0x100) + (low * 0x100 + last)
  {
  }

  /** The first half holds the high bytes: together the halves are the root as one number. */
  lemma HalvesAreRoot(root: Root)
    ensures BigEndian(root) == Halves(root).0 * Power256(16) + Halves(root).1
    ensures Halves(root).1 < Power256(16)
  {
    BytesBelowPower(root[16..]);
    BigEndianConcat(root[..16], root[16..]);
    assert root[..16] + root[16..] == root;
  }

  /** Each root is absorbed after the state so far, high half first; the domain is hashed in front of the result. */
  lemma RootsAreAbsorbedInOrder(h: Hasher, roots: seq<Root>, root: Root)
    ensures Fold(h, []) == 0
    ensures Fold(h, roots + [root]) == h.hash([Fold(h, roots), Halves(root).0, Halves(root).1])
    ensures Outcome(h, roots) == h.hash([h.domain, Fold(h, roots)])
  {
    assert (roots + [root])[..|roots|] == roots;
  }

  function Fold(h: Hasher, roots: seq<Root>): Felt
  {
    if roots == [] then 0
    else
      var (hi, lo) := Halves(roots[|roots| - 1]);
      h.hash([Fold(h, roots[..|roots| - 1]), hi, lo])
  }

  /** The outer hash over the fold, before it is written out. */
  function Outcome(h: Hasher, roots: seq<Root>): Felt
  {
    h.hash([h.domain, Fold(h, roots)])
  }

  /** The aggregate root as the 32 bytes that are returned. */
  function AggregateRoot(h: Hasher, roots: seq<Root>): Root
  {
    ToBytes(Outcome(h, roots), 32)
  }

  method AggregateRoots(h: Hasher, roots: seq<Root>) returns (r: Result)
    ensures r.EmptyWindow? <==> roots == []
    ensures r.Ok? ==> r.root == AggregateRoot(h, roots) && BigEndian(r.root) == Outcome(h, roots)
  {
    if roots == [] { return EmptyWindow; }
    var fold: Felt := 0;
    for k := 0 to |roots|
      invariant fold == Fold(h, roots[..k])
    {
      assert roots[..k + 1][..k] == roots[..k];
      var (hi, lo) := Halves(roots[k]);
      fold := h.hash([fold, hi, lo]);
    }
    assert roots[..|roots|] == roots;
    var outcome := h.hash([h.domain, fold]);
    FeltRoundTrip(outcome);
    return Ok(ToBytes(outcome, 32));
  }

  // ----- the halves lose nothing

  lemma {:induction false} BigEndianInjective(a: seq<Byte>, b: seq<Byte>)
    requires |a| == |b| && BigEndian(a) == BigEndian(b)
    ensures a == b
  {
    if a != [] {
      var x, y := a[..|a| - 1], b[..|b| - 1];
      LastByte(BigEndian(x), a[|a| - 1] as int, BigEndian(y), b[|b| - 1] as int);
      BigEndianInjective(x, y);
      assert a == x + [a[|a| - 1]] && b == y + [b[|b| - 1]];
    }
  }

  lemma LastByte(x: nat, p: int, y: nat, q: int)
    requires 0 <= p < 0x100 && 0 <= q < 0x100 && x * 0x100 + p == y * 0x100 + q
    ensures x == y && p == q
  {
  }

  lemma {:induction false} BytesRoundTrip(value: nat, n: nat)
    requires value < Power256(n)
    ensures BigEndian(ToBytes(value, n)) == value
  {
    if n > 0 {
      BytesRoundTrip(value / 0x100, n - 1);
      var bytes := ToBytes(value, n);
      assert bytes[..n - 1] == ToBytes(value / 0x100, n - 1);
    }
  }

  /** Thirty-two bytes hold a field element without loss. */
  lemma FeltRoundTrip(f: Felt)
    ensures BigEndian(ToBytes(f, 32)) == f
  {
    PowersAroundPrime();
    BytesRoundTrip(f, 32);
  }

  lemma HalvesInjective(a: Root, b: Root)
    requires Halves(a) == Halves(b)
    ensures a == b
  {
    BigEndianInjective(a[..16], b[..16]);
    BigEndianInjective(a[16..], b[16..]);
    assert a == a[..16] + a[16..] && b == b[..16] + b[16..];
  }

  // ----- two windows with one aggregate root

  datatype Evidence =
    | SameWindow
    | Collision(left: seq<Felt>, right: seq<Felt>)
    | ZeroPreimage(input: seq<Felt>)

  /** A collision consists of two different inputs with one hash; a zero preimage hashes to the fold's start. */
  predicate Genuine(h: Hasher, e: Evidence)
  {
    match e
    case SameWindow => true
    case Collision(left, right) => left != right && h.hash(left) == h.hash(right)
    case ZeroPreimage(input) => h.hash(input) == 0
  }

  /** The explicit construction: peel both folds from the end until the inputs differ or one fold is at its start. */
  function Compare(h: Hasher, a: seq<Root>, b: seq<Root>): Evidence
    decreases |a|
  {
    if a == [] && b == [] then SameWindow
    else if a == [] then ZeroPreimage(LastInput(h, b))
    else if b == [] then ZeroPreimage(LastInput(h, a))
    else if LastInput(h, a) != LastInput(h, b) then Collision(LastInput(h, a), LastInput(h, b))
    else Compare(h, a[..|a| - 1], b[..|b| - 1])
  }

  function LastInput(h: Hasher, roots: seq<Root>): seq<Felt>
    requires roots != []
  {
    var (hi, lo) := Halves(roots[|roots| - 1]);
    [Fold(h, roots[..|roots| - 1]), hi, lo]
  }

  lemma {:induction false} EqualFolds(h: Hasher, a: seq<Root>, b: seq<Root>)
    requires Fold(h, a) == Fold(h, b)
    ensures Genuine(h, Compare(h, a, b))
    ensures Compare(h, a, b) == SameWindow <==> a == b
    decreases |a|
  {
    if a != [] && b != [] && LastInput(h, a) == LastInput(h, b) {
      var x, y := LastInput(h, a), LastInput(h, b);
      assert x[0] == y[0] && x[1] == y[1] && x[2] == y[2];
      HalvesInjective(a[|a| - 1], b[|b| - 1]);
      EqualFolds(h, a[..|a| - 1], b[..|b| - 1]);
      assert a == a[..|a| - 1] + [a[|a| - 1]] && b == b[..|b| - 1] + [b[|b| - 1]];
    } else if a != [] && b != [] {
      assert a != b;
    }
  }

  function Outer(h: Hasher, a: seq<Root>, b: seq<Root>): Evidence
  {
    if Fold(h, a) != Fold(h, b) then Collision([h.domain, Fold(h, a)], [h.domain, Fold(h, b)]) else Compare(h, a, b)
  }

  /**
   Windows of any lengths with one aggregate root, byte for byte, are the same window, or the
   construction gives a collision of the hash or an input that hashes to zero.
   */
  lemma EqualRootsSameWindowOrCollision(h: Hasher, a: seq<Root>, b: seq<Root>)
    requires AggregateRoot(h, a) == AggregateRoot(h, b)
    ensures Outer(h, a, b) == SameWindow <==> a == b
    ensures match Outer(h, a, b)
            case SameWindow => true
            case Collision(left, right) => left != right && h.hash(left) == h.hash(right)
            case ZeroPreimage(input) => h.hash(input) == 0
  {
    FeltRoundTrip(Outcome(h, a));
    FeltRoundTrip(Outcome(h, b));
    if Fold(h, a) == Fold(h, b) {
      EqualFolds(h, a, b);
    } else {
      var left, right := [h.domain, Fold(h, a)], [h.domain, Fold(h, b)];
      assert left[1] != right[1];
    }
  }
}
