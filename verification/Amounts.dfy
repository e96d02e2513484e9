/** Decimal amounts as text: the grouping printer, the input parser and the canonical-amount check. */
module Amounts {
  import opened Seqs

  const U64_MAX: nat := 0xFFFF_FFFF_FFFF_FFFF
  const MAX_AMOUNT_LENGTH: nat := 20

  // ----- digits and values

  predicate IsDigit(c: char)
  {
    '0' <= c <= '9'
  }

  predicate IsSpace(c: char)
  {
    || c == ' ' || '\U{0009}' <= c <= '\U{000D}' || c == '\U{00A0}' || c == '\U{1680}'
    || '\U{2000}' <= c <= '\U{200A}' || c == '\U{2028}' || c == '\U{2029}' || c == '\U{202F}'
    || c == '\U{205F}' || c == '\U{3000}' || c == '\U{FEFF}'
  }

  /** Tab to carriage return, the ordinary and no-break space, the other space marks, and the byte order mark. */
  lemma SpacesAreThese(c: char)
    ensures IsSpace(c) <==>
            || c in ['\U{0009}', '\U{000A}', '\U{000B}', '\U{000C}', '\U{000D}', '\U{0020}', '\U{00A0}']
            || c in ['\U{1680}', '\U{2000}', '\U{2001}', '\U{2002}', '\U{2003}', '\U{2004}', '\U{2005}']
            || c in ['\U{2006}', '\U{2007}', '\U{2008}', '\U{2009}', '\U{200A}', '\U{2028}', '\U{2029}']
            || c in ['\U{202F}', '\U{205F}', '\U{3000}', '\U{FEFF}']
  {
  }

  predicate Digits(s: string)
  {
    s != "" && forall i :: 0 <= i < |s| ==> IsDigit(s[i])
  }

  function DigitValue(c: char): nat
    requires IsDigit(c)
  {
    c as int - '0' as int
  }

  /** The number a digit string denotes. */
  function Value(s: string): nat
    requires s == "" || Digits(s)
  {
    if s == "" then 0
    else
      var front := s[..|s| - 1];
      assert front == "" || Digits(front);
      10 * Value(front) + DigitValue(s[|s| - 1])
  }

  function Pow10(n: nat): (p: nat)
    ensures p >= 1
  {
    if n == 0 then 1 else 10 * Pow10(n - 1)
  }

  /** No leading zero except in "0" itself. */
  predicate Canonical(s: string)
  {
    Digits(s) && (|s| > 1 ==> s[0] != '0')
  }

  lemma {:induction false} ValueBelowPow(s: string)
    requires s == "" || Digits(s)
    ensures Value(s) < Pow10(|s|)
  {
    if s != "" {
      ValueBelowPow(s[..|s| - 1]);
    }
  }

  lemma ValueSnoc(front: string, c: char)
    requires (front == "" || Digits(front)) && IsDigit(c)
    ensures Digits(front + [c]) && Value(front + [c]) == 10 * Value(front) + DigitValue(c)
  {
    assert (front + [c])[..|front|] == front;
  }

  lemma {:induction false} ValueConcat(a: string, b: string)
    requires (a == "" || Digits(a)) && (b == "" || Digits(b))
    ensures a + b == "" || Digits(a + b)
    ensures Value(a + b) == Value(a) * Pow10(|b|) + Value(b)
  {
    if b == "" {
      assert a + b == a;
    } else {
      var front, last := b[..|b| - 1], b[|b| - 1];
      ValueConcat(a, front);
      ValueSnoc(a + front, last);
      assert a + b == (a + front) + [last];
      ShiftPlace(Value(a), Pow10(|front|));
    }
  }

  lemma ShiftPlace(x: nat, y: nat)
    ensures 10 * (x * y) == x * (10 * y)
  {
  }

  lemma TimesAtLeast(x: nat, y: nat)
    requires x >= 1
    ensures x * y >= y
  {
  }

  lemma LeadingDigitWeighs(s: string)
    requires Canonical(s) && s != "0"
    ensures Value(s) >= Pow10(|s| - 1)
  {
    var head, tail := s[..1], s[1..];
    assert s == head + tail;
    ValueConcat(head, tail);
    assert head[..0] == "" && Value(head) == DigitValue(s[0]) >= 1;
    TimesAtLeast(Value(head), Pow10(|tail|));
  }

  /** A canonical numeral within u64 has at most twenty digits. */
  lemma U64HasTwentyDigits(s: string)
    requires Canonical(s) && Value(s) <= U64_MAX
    ensures |s| <= MAX_AMOUNT_LENGTH
  {
    if |s| > MAX_AMOUNT_LENGTH {
      LeadingDigitWeighs(s);
      PowGrows(MAX_AMOUNT_LENGTH, |s| - 1);
      TwentyOneDigitsExceedU64();
    }
  }

  lemma TwentyOneDigitsExceedU64()
    ensures Pow10(MAX_AMOUNT_LENGTH) > U64_MAX
  {
    assert Pow10(4) == 10_000;
    assert Pow10(8) == 100_000_000;
    assert Pow10(12) == 1_000_000_000_000;
    assert Pow10(16) == 10_000_000_000_000_000;
    assert Pow10(20) == 100_000_000_000_000_000_000;
  }

  lemma {:induction false} PowGrows(a: nat, b: nat)
    requires a <= b
    ensures Pow10(a) <= Pow10(b)
    decreases b - a
  {
    if a < b {
      PowGrows(a + 1, b);
    }
  }

  lemma OneDigitOrTen(s: string)
    requires Canonical(s)
    ensures |s| > 1 <==> Value(s) >= 10
  {
    if |s| > 1 {
      LeadingDigitWeighs(s);
      PowGrows(1, |s| - 1);
      assert Pow10(1) == 10;
    } else {
      assert s[..0] == "";
    }
  }

  /** Canonical numerals are determined by their value. */
  lemma {:induction false} CanonicalUnique(s: string, t: string)
    requires Canonical(s) && Canonical(t) && Value(s) == Value(t)
    ensures s == t
  {
    OneDigitOrTen(s);
    OneDigitOrTen(t);
    var a, b := s[..|s| - 1], t[..|t| - 1];
    assert s == a + [s[|s| - 1]] && t == b + [t[|t| - 1]];
    if |s| > 1 {
      CanonicalUnique(a, b);
    }
  }

  // ----- the decimal pattern: optional sign, digits, optional fraction

  datatype Decimal = Decimal(negative: bool, whole: string, frac: Option<string>)

  /** Length of the longest run of digits at the front. */
  function DigitRun(s: string): (n: nat)
    ensures n <= |s|
    ensures forall i :: 0 <= i < n ==> IsDigit(s[i])
    ensures n < |s| ==> !IsDigit(s[n])
  {
    if s == "" || !IsDigit(s[0]) then 0 else 1 + DigitRun(s[1..])
  }

  function Unsigned(negative: bool, s: string): (d: Option<Decimal>)
    ensures d.Some? ==> Digits(d.value.whole) && (d.value.frac.Some? ==> Digits(d.value.frac.value))
  {
    var n := DigitRun(s);
    if n == 0 then None
    else if n == |s| then Some(Decimal(negative, s, None))
    else if s[n] == '.' && Digits(s[n + 1..]) then Some(Decimal(negative, s[..n], Some(s[n + 1..])))
    else None
  }

  function Match(s: string): (d: Option<Decimal>)
    ensures d.Some? ==> Digits(d.value.whole) && (d.value.frac.Some? ==> Digits(d.value.frac.value))
  {
    if s != "" && s[0] == '-' then Unsigned(true, s[1..]) else Unsigned(false, s)
  }

  function Sign(negative: bool): string
  {
    if negative then "-" else ""
  }

  function Fraction(frac: Option<string>): string
  {
    if frac.Some? then "." + frac.value else ""
  }

  function Written(d: Decimal): string
  {
    Sign(d.negative) + d.whole + Fraction(d.frac)
  }

  lemma UnsignedWritten(negative: bool, whole: string, frac: Option<string>)
    requires Digits(whole) && (frac.Some? ==> Digits(frac.value))
    ensures Unsigned(negative, whole + Fraction(frac)) == Some(Decimal(negative, whole, frac))
  {
    var body := whole + Fraction(frac);
    RunOfDigits(whole, Fraction(frac));
    assert body[..|whole|] == whole;
    if frac.Some? {
      assert body[|whole|] == '.' && body[|whole| + 1..] == frac.value;
    } else {
      assert body == whole;
    }
  }

  /** The pattern reads back exactly what it wrote. */
  lemma MatchWritten(d: Decimal)
    requires Digits(d.whole) && (d.frac.Some? ==> Digits(d.frac.value))
    ensures Match(Written(d)) == Some(d)
  {
    var body := d.whole + Fraction(d.frac);
    UnsignedWritten(d.negative, d.whole, d.frac);
    Associative(Sign(d.negative), d.whole, Fraction(d.frac));
    if d.negative {
      assert ("-" + body)[1..] == body;
    } else {
      assert "" + body == body && IsDigit(body[0]);
    }
  }

  lemma {:induction false} RunOfDigits(digits: string, rest: string)
    requires forall i :: 0 <= i < |digits| ==> IsDigit(digits[i])
    requires rest == "" || !IsDigit(rest[0])
    ensures DigitRun(digits + rest) == |digits|
  {
    if digits == "" {
      assert digits + rest == rest;
    } else {
      RunOfDigits(digits[1..], rest);
      assert (digits + rest)[1..] == digits[1..] + rest;
    }
  }

  lemma UnsignedIsWritten(negative: bool, s: string)
    requires Unsigned(negative, s).Some?
    ensures var d := Unsigned(negative, s).value; d.negative == negative && s == d.whole + Fraction(d.frac)
  {
    var n := DigitRun(s);
    if n < |s| {
      assert s == s[..n] + ("." + s[n + 1..]);
    } else {
      assert s == s + "";
    }
  }

  lemma MatchIsWritten(s: string)
    requires Match(s).Some?
    ensures Written(Match(s).value) == s
  {
    var d := Match(s).value;
    UnsignedIsWritten(d.negative, if d.negative then s[1..] else s);
    Associative(Sign(d.negative), d.whole, Fraction(d.frac));
  }

  // ----- printing

  function TrimLeft(s: string): string
  {
    if s != "" && IsSpace(s[0]) then TrimLeft(s[1..]) else s
  }

  function TrimRight(s: string): string
  {
    if s != "" && IsSpace(s[|s| - 1]) then TrimRight(s[..|s| - 1]) else s
  }

  function Trim(s: string): string
  {
    TrimRight(TrimLeft(s))
  }

  /** Leading zeros go, but the last digit stays. */
  function StripZeros(s: string): (r: string)
    ensures Digits(s) ==> Canonical(r)
  {
    if |s| > 1 && s[0] == '0' && IsDigit(s[1]) then StripZeros(s[1..]) else s
  }

  function Comma(s: string): string
  {
    if |s| > 1 && (|s| - 1) % 3 == 0 then "," else ""
  }

  /** A comma goes in wherever a positive multiple of three digits follows. */
  function Group(s: string): string
  {
    if s == "" then "" else [s[0]] + Comma(s) + Group(s[1..])
  }

  function FmtAmount(value: string): string
  {
    var raw := Trim(value);
    match Match(raw)
    case None => raw
    case Some(d) => Sign(d.negative) + Group(StripZeros(d.whole)) + Fraction(d.frac)
  }

  function Zeros(n: nat): (z: string)
    ensures |z| == n && forall i :: 0 <= i < n ==> z[i] == '0'
  {
    seq(n, i => '0')
  }

  function PadTo(frac: string, target: nat): string
  {
    if |frac| >= target then frac else frac + Zeros(target - |frac|)
  }

  /** The fixed display precision of an asset kind; an ERC-20 has none of its own. */
  function DisplayDecimals(kind: string): Option<nat>
  {
    if kind in {"play", "native", "note", "usd", "gwei"} then Some(2)
    else if kind in {"eth", "strk"} then Some(4)
    else None
  }

  function FmtDisplay(value: string, kind: string, decimals: Option<nat>): string
  {
    var raw := Trim(value);
    var target := if decimals.Some? then decimals else DisplayDecimals(kind);
    match target
    case None => FmtAmount(raw)
    case Some(places) =>
      match Match(raw)
      case None => FmtAmount(raw)
      case Some(d) =>
        var frac := if d.frac.Some? then d.frac.value else "";
        FmtAmount(Sign(d.negative) + d.whole + "." + PadTo(frac, places))
  }

  // ----- parsing

  datatype Parsed = Ok(amount: string) | AmountInvalid | AmountOverflow

  function ValidateAmount(v: string): (r: Parsed)
    ensures r.Ok? ==> r.amount == v
  {
    if |v| == 0 || |v| > MAX_AMOUNT_LENGTH then AmountInvalid
    else if !Digits(v) then AmountInvalid
    else if |v| > 1 && v[0] == '0' then AmountInvalid
    else if Value(v) > U64_MAX then AmountOverflow
    else if Value(v) == 0 then AmountInvalid
    else Ok(v)
  }

  predicate Kept(c: char)
  {
    c != ',' && c != '_' && !IsSpace(c)
  }

  predicate AllZeros(s: string)
  {
    forall i :: 0 <= i < |s| ==> s[i] == '0'
  }

  function ParseAmountInput(raw: string): Parsed
  {
    var s := Filter(Kept, Trim(raw));
    match Unsigned(false, s)
    case None => AmountInvalid
    case Some(d) =>
      if d.frac.Some? && !AllZeros(d.frac.value) then AmountInvalid
      else ValidateAmount(StripZeros(d.whole))
  }

  /** The amounts the wallet accepts: canonical, positive, within u64. */
  ghost predicate ValidAmount(s: string)
  {
    Canonical(s) && 0 < Value(s) <= U64_MAX
  }

  lemma ValidateAmountExactly(s: string)
    ensures ValidateAmount(s).Ok? <==> ValidAmount(s)
  {
    if ValidAmount(s) {
      U64HasTwentyDigits(s);
    }
  }

  /** An overflow is reported exactly for canonical numerals of at most twenty digits above u64. */
  lemma OverflowExactly(s: string)
    ensures ValidateAmount(s).AmountOverflow? <==> Canonical(s) && |s| <= 20 && Value(s) > 0xFFFF_FFFF_FFFF_FFFF
  {
  }

  /** Everything else that is refused is no amount at all: no numeral, zero, or one of more than twenty digits. */
  lemma InvalidExactly(s: string)
    ensures ValidateAmount(s).AmountInvalid? <==> !Canonical(s) || s == "0" || |s| > 20
  {
    if Canonical(s) {
      if |s| > 1 {
        OneDigitOrTen(s);
      } else {
        assert s[..0] == "" && Value(s) == DigitValue(s[0]);
        assert Value(s) == 0 ==> s == ['0'];
      }
    }
  }

  // ----- stripping and trimming facts

  lemma {:induction false} StripZerosKeepsValue(s: string)
    requires Digits(s)
    ensures Value(StripZeros(s)) == Value(s)
  {
    if |s| > 1 && s[0] == '0' {
      assert Digits(s[1..]);
      StripZerosKeepsValue(s[1..]);
      assert s == s[..1] + s[1..] && s[..1][..0] == "";
      ValueConcat(s[..1], s[1..]);
      assert Value(s[..1]) == 0;
    }
  }

  lemma CanonicalUnstripped(s: string)
    requires Canonical(s)
    ensures StripZeros(s) == s
  {
  }

  predicate NoSpaces(s: string)
  {
    forall i :: 0 <= i < |s| ==> !IsSpace(s[i])
  }

  lemma NothingToTrim(s: string)
    requires NoSpaces(s)
    ensures Trim(s) == s
  {
  }

  predicate TrimmedEnds(s: string)
  {
    s == "" || (!IsSpace(s[0]) && !IsSpace(s[|s| - 1]))
  }

  lemma {:induction false} TrimRightFacts(s: string)
    ensures TrimRight(s) == "" || !IsSpace(TrimRight(s)[|TrimRight(s)| - 1])
    ensures |TrimRight(s)| <= |s| && TrimRight(s) == s[..|TrimRight(s)|]
  {
    if s != "" && IsSpace(s[|s| - 1]) {
      TrimRightFacts(s[..|s| - 1]);
    }
  }

  lemma {:induction false} TrimLeftFacts(s: string)
    ensures TrimLeft(s) == "" || !IsSpace(TrimLeft(s)[0])
  {
    if s != "" && IsSpace(s[0]) {
      TrimLeftFacts(s[1..]);
    }
  }

  lemma TrimTrims(s: string)
    ensures TrimmedEnds(Trim(s)) && Trim(Trim(s)) == Trim(s)
  {
    TrimLeftFacts(s);
    TrimRightFacts(TrimLeft(s));
  }

  // ----- what the printer writes

  predicate NotComma(c: char)
  {
    c != ','
  }

  predicate DigitsOnly(s: string)
  {
    forall i :: 0 <= i < |s| ==> IsDigit(s[i])
  }

  lemma {:induction false} GroupChars(s: string)
    requires DigitsOnly(s)
    ensures forall c :: c in Group(s) ==> IsDigit(c) || c == ','
    ensures |s| <= 3 ==> Group(s) == s
    ensures |s| > 3 ==> ',' in Group(s)
    ensures s != "" ==> Group(s) != "" && Group(s)[0] == s[0]
  {
    if s != "" {
      GroupChars(s[1..]);
    }
  }

  lemma {:induction false} GroupStripped(s: string)
    requires DigitsOnly(s)
    ensures Filter(NotComma, Group(s)) == s
  {
    if s != "" {
      GroupStripped(s[1..]);
      FilterConcat(NotComma, [s[0]] + Comma(s), Group(s[1..]));
      FilterConcat(NotComma, [s[0]], Comma(s));
      assert [s[0]] + s[1..] == s;
      assert Filter(NotComma, [s[0]]) == [s[0]];
    }
  }

  /** There are as many commas as complete groups of three after the first digit. */
  lemma {:induction false} GroupLength(s: string)
    requires s != ""
    ensures |Group(s)| == |s| + (|s| - 1) / 3
  {
    if |s| > 1 {
      GroupLength(s[1..]);
    } else {
      assert Group(s[1..]) == "";
    }
  }

  /** A comma stands only where a positive multiple of three digits follows, and never next to another. */
  lemma {:induction false} GroupsOfThree(s: string, i: nat)
    requires DigitsOnly(s) && i < |Group(s)| && Group(s)[i] == ','
    ensures i > 0 && |Filter(NotComma, Group(s)[i + 1..])| % 3 == 0
    ensures i + 1 < |Group(s)| && Group(s)[i + 1] != ','
  {
    var front, rest := [s[0]] + Comma(s), Group(s[1..]);
    if i >= |front| {
      assert (front + rest)[i] == rest[i - |front|];
      GroupsOfThree(s[1..], i - |front|);
      SliceBeyond(front, rest, i);
      assert (front + rest)[i + 1] == rest[i - |front| + 1];
    } else {
      FirstComma(s);
    }
  }

  lemma FirstComma(s: string)
    requires DigitsOnly(s) && |s| > 1 && (|s| - 1) % 3 == 0
    ensures |Group(s)| > 2 && Group(s)[2] != ',' && |Filter(NotComma, Group(s)[2..])| % 3 == 0
  {
    GroupChars(s[1..]);
    GroupStripped(s[1..]);
    AfterFront([s[0]] + Comma(s), Group(s[1..]));
  }

  lemma AfterFront(front: string, rest: string)
    ensures (front + rest)[|front|..] == rest
    ensures rest != "" ==> (front + rest)[|front|] == rest[0]
  {
  }

  lemma SliceBeyond(front: string, rest: string, i: nat)
    requires |front| <= i + 1 <= |front + rest|
    ensures (front + rest)[i + 1..] == rest[i + 1 - |front|..]
  {
  }

  function Stripped(d: Decimal): Decimal
  {
    d.(whole := StripZeros(d.whole))
  }

  lemma FmtWritten(d: Decimal)
    requires Digits(d.whole) && (d.frac.Some? ==> Digits(d.frac.value))
    ensures FmtAmount(Written(d)) == Sign(d.negative) + Group(StripZeros(d.whole)) + Fraction(d.frac)
  {
    MatchWritten(d);
    WrittenHasNoSpaces(d);
    NothingToTrim(Written(d));
  }

  /**
   Removing the commas from a printed decimal gives back its sign, its digits without leading zeros
   and its fraction to the last digit.
   */
  lemma CommasAreAllThatIsAdded(d: Decimal)
    requires Digits(d.whole) && (d.frac.Some? ==> Digits(d.frac.value))
    ensures Filter(NotComma, FmtAmount(Written(d))) == Written(Stripped(d))
    ensures Filter(Kept, FmtAmount(Written(d))) == Written(Stripped(d))
    ensures NoSpaces(FmtAmount(Written(d)))
  {
    FmtWritten(d);
    var digits, fraction := StripZeros(d.whole), Fraction(d.frac);
    GroupChars(digits);
    GroupStripped(digits);
    SeparatorsGo(Group(digits));
    SignChars(d.negative);
    FractionChars(d.frac);
    AroundDigits(NotComma, Sign(d.negative), Group(digits), fraction);
    AroundDigits(Kept, Sign(d.negative), Group(digits), fraction);
    JoinedNoSpaces(Sign(d.negative), Group(digits), fraction);
  }

  ghost predicate All(keep: char -> bool, s: string)
  {
    forall c :: c in s ==> keep(c)
  }

  lemma SignChars(negative: bool)
    ensures All(NotComma, Sign(negative)) && All(Kept, Sign(negative)) && NoSpaces(Sign(negative))
  {
  }

  lemma FractionChars(frac: Option<string>)
    requires frac.Some? ==> Digits(frac.value)
    ensures All(NotComma, Fraction(frac)) && All(Kept, Fraction(frac)) && NoSpaces(Fraction(frac))
  {
  }

  lemma JoinedNoSpaces(a: string, b: string, c: string)
    requires NoSpaces(a) && NoSpaces(b) && NoSpaces(c)
    ensures NoSpaces(a + b + c)
  {
  }

  lemma AroundDigits(keep: char -> bool, sign: string, grouped: string, fraction: string)
    requires All(keep, sign) && All(keep, fraction)
    ensures Filter(keep, sign + grouped + fraction) == sign + Filter(keep, grouped) + fraction
  {
    FilterConcat(keep, sign + grouped, fraction);
    FilterConcat(keep, sign, grouped);
    FilterAll(keep, sign);
    FilterAll(keep, fraction);
  }

  lemma WrittenHasNoSpaces(d: Decimal)
    requires Digits(d.whole) && (d.frac.Some? ==> Digits(d.frac.value))
    ensures NoSpaces(Written(d))
  {
  }

  /** On digits and commas the parser's clean-up and plain comma removal are the same. */
  lemma {:induction false} SeparatorsGo(s: string)
    requires forall c :: c in s ==> IsDigit(c) || c == ','
    ensures Filter(Kept, s) == Filter(NotComma, s) && NoSpaces(s)
  {
    if s != "" {
      assert s[0] in s;
      SeparatorsGo(s[1..]);
      assert forall i :: 0 < i < |s| ==> s[i] == s[1..][i - 1];
    }
  }

  /** Printing twice changes nothing, whatever the text. */
  lemma FmtAmountIdempotent(value: string)
    ensures FmtAmount(FmtAmount(value)) == FmtAmount(value)
  {
    var raw := Trim(value);
    TrimTrims(value);
    if Match(raw).Some? {
      var d := Match(raw).value;
      MatchIsWritten(raw);
      CommasAreAllThatIsAdded(d);
      NothingToTrim(raw) by { WrittenHasNoSpaces(d); }
      var out := FmtAmount(value);
      NothingToTrim(out);
      GroupChars(StripZeros(d.whole));
      if |StripZeros(d.whole)| <= 3 {
        assert out == Written(Stripped(d));
        MatchWritten(Stripped(d));
        CanonicalUnstripped(StripZeros(d.whole));
      } else if Match(out).Some? {
        MatchIsWritten(out);
        WrittenHasNoComma(Match(out).value);
        CommaInOutput(d);
      }
    }
  }

  lemma CommaInOutput(d: Decimal)
    requires Digits(d.whole) && |StripZeros(d.whole)| > 3
    ensures ',' in Sign(d.negative) + Group(StripZeros(d.whole)) + Fraction(d.frac)
  {
    GroupChars(StripZeros(d.whole));
  }

  lemma WrittenHasNoComma(d: Decimal)
    requires Digits(d.whole) && (d.frac.Some? ==> Digits(d.frac.value))
    ensures ',' !in Written(d)
  {
  }

  // ----- printer and parser undo each other

  /** What the parser accepts, in terms of the text with separators removed. */
  ghost predicate WholeNumber(s: string, digits: string)
  {
    && Digits(digits)
    && (s == digits
        || exists zeros :: Digits(zeros) && s == digits + "." + zeros
                           && forall i :: 0 <= i < |zeros| ==> zeros[i] == '0')
  }

  lemma ParseWhole(raw: string, d: Decimal)
    requires Digits(d.whole) && !d.negative && (d.frac.Some? ==> Digits(d.frac.value) && AllZeros(d.frac.value))
    requires Filter(Kept, Trim(raw)) == Written(d)
    ensures ParseAmountInput(raw) == ValidateAmount(StripZeros(d.whole))
  {
    MatchWritten(d);
  }

  lemma FmtThenParse(s: string)
    requires ValidAmount(s)
    ensures ParseAmountInput(FmtAmount(s)) == Ok(s)
  {
    var d := Decimal(false, s, None);
    assert Written(d) == s;
    CommasAreAllThatIsAdded(d);
    CanonicalUnstripped(s);
    NothingToTrim(FmtAmount(s));
    ParseWhole(FmtAmount(s), d);
    ValidateAmountExactly(s);
  }

  function Places(kind: string, decimals: Option<nat>): Option<nat>
  {
    if decimals.Some? then decimals else DisplayDecimals(kind)
  }

  lemma DisplayOfValid(s: string, kind: string, decimals: Option<nat>)
    requires Digits(s)
    ensures Places(kind, decimals) == None ==> FmtDisplay(s, kind, decimals) == FmtAmount(s)
    ensures Places(kind, decimals).Some? ==>
              FmtDisplay(s, kind, decimals) == FmtAmount(s + "." + Zeros(Places(kind, decimals).value))
  {
    var plain := Decimal(false, s, None);
    assert Written(plain) == s;
    MatchWritten(plain);
    NothingToTrim(s);
    var target := Places(kind, decimals);
    if target.Some? {
      assert PadTo("", target.value) == Zeros(target.value);
      assert "" + s == s;
    }
  }

  lemma PaddedParse(s: string, places: nat)
    requires ValidAmount(s) && places > 0
    ensures ParseAmountInput(FmtAmount(s + "." + Zeros(places))) == Ok(s)
  {
    var d := Decimal(false, s, Some(Zeros(places)));
    assert Written(d) == s + "." + Zeros(places);
    CommasAreAllThatIsAdded(d);
    CanonicalUnstripped(s);
    NothingToTrim(FmtAmount(Written(d)));
    ParseWhole(FmtAmount(Written(d)), d);
    ValidateAmountExactly(s);
  }

  /**
   The display form parses back to the amount exactly when the caller does not ask for zero decimals;
   with zero decimals it ends in a bare point that the parser refuses.
   */
  lemma DisplayThenParse(s: string, kind: string, decimals: Option<nat>)
    requires ValidAmount(s)
    ensures ParseAmountInput(FmtDisplay(s, kind, decimals)) == Ok(s) <==> Places(kind, decimals) != Some(0)
    ensures Places(kind, decimals) == Some(0) ==> FmtDisplay(s, kind, decimals) == s + "."
    ensures decimals == None ==> ParseAmountInput(FmtDisplay(s, kind, decimals)) == Ok(s)
  {
    DisplayOfValid(s, kind, decimals);
    match Places(kind, decimals)
    case None =>
      FmtThenParse(s);
    case Some(places) =>
      if places == 0 {
        assert s + "." + Zeros(0) == s + ".";
        BarePoint(s);
      } else {
        PaddedParse(s, places);
      }
  }

  lemma PointIsNoNumber(negative: bool, s: string)
    requires Digits(s)
    ensures Unsigned(negative, s + ".") == None && NoSpaces(s + ".") && forall c :: c in s + "." ==> NotComma(c)
    ensures Match(s + ".") == None
  {
    var t := s + ".";
    RunOfDigits(s, ".");
    assert t[|s| + 1..] == "";
    assert t[0] == s[0] && IsDigit(s[0]);
  }

  lemma BarePoint(s: string)
    requires Digits(s)
    ensures FmtAmount(s + ".") == s + "." && ParseAmountInput(s + ".") == AmountInvalid
  {
    PointIsNoNumber(false, s);
    NothingToTrim(s + ".");
    FilterAll(Kept, s + ".");
  }

  /** The parser accepts exactly whole numbers in range, however grouped, and returns their canonical form. */
  lemma ParseAcceptsExactly(raw: string)
    ensures ParseAmountInput(raw).Ok? <==>
            exists digits :: WholeNumber(Filter(Kept, Trim(raw)), digits) && 0 < Value(digits) <= U64_MAX
    ensures forall digits | WholeNumber(Filter(Kept, Trim(raw)), digits) && ParseAmountInput(raw).Ok? ::
              ValidAmount(ParseAmountInput(raw).amount) && Value(ParseAmountInput(raw).amount) == Value(digits)
  {
    var s := Filter(Kept, Trim(raw));
    forall digits | WholeNumber(s, digits)
      ensures ParseAmountInput(raw).Ok? <==> 0 < Value(digits) <= U64_MAX
      ensures ParseAmountInput(raw).Ok? ==>
                ValidAmount(ParseAmountInput(raw).amount) && Value(ParseAmountInput(raw).amount) == Value(digits)
    {
      WholeNumberParses(raw, digits);
      ValidateAmountExactly(StripZeros(digits));
      StripZerosKeepsValue(digits);
    }
    if ParseAmountInput(raw).Ok? {
      var digits := AcceptedIsWhole(raw);
      StripZerosKeepsValue(digits);
      WholeNumberParses(raw, digits);
      ValidateAmountExactly(StripZeros(digits));
      assert WholeNumber(Filter(Kept, Trim(raw)), digits) && 0 < Value(digits) <= U64_MAX;
    }
  }

  lemma AcceptedIsWhole(raw: string) returns (digits: string)
    requires ParseAmountInput(raw).Ok?
    ensures WholeNumber(Filter(Kept, Trim(raw)), digits)
  {
    var s := Filter(Kept, Trim(raw));
    var d := Unsigned(false, s).value;
    digits := d.whole;
    if d.frac.Some? {
      assert s == digits + "." + d.frac.value;
    }
  }

  lemma WholeNumberParses(raw: string, digits: string)
    requires WholeNumber(Filter(Kept, Trim(raw)), digits)
    ensures ParseAmountInput(raw) == ValidateAmount(StripZeros(digits))
  {
    var s := Filter(Kept, Trim(raw));
    if s == digits {
      var d := Decimal(false, digits, None);
      assert Written(d) == s;
      ParseWhole(raw, d);
    } else {
      var zeros :| Digits(zeros) && AllZeros(zeros) && s == digits + "." + zeros;
      var d := Decimal(false, digits, Some(zeros));
      assert Written(d) == s;
      ParseWhole(raw, d);
    }
  }

  /** The fraction shown for a decimal: padded to the precision in force, or as it is when there is none. */
  function Shown(d: Decimal, places: Option<nat>): Option<string>
  {
    match places
    case None => d.frac
    case Some(n) => Some(PadTo(if d.frac.Some? then d.frac.value else "", n))
  }

  /**
   For every kind of the table and every explicit precision, the display form is the input up to leading
   zeros and added fraction zeros. The one exception is an integer shown with zero decimals.
   */
  lemma DisplayAddsOnlyZeros(d: Decimal, kind: string, decimals: Option<nat>)
    requires Digits(d.whole) && (d.frac.Some? ==> Digits(d.frac.value))
    ensures Filter(NotComma, FmtDisplay(Written(d), kind, decimals)) ==
            Written(Decimal(d.negative, StripZeros(d.whole), Shown(d, Places(kind, decimals)))) <==>
            !(Places(kind, decimals) == Some(0) && d.frac.None? && |d.whole| > 1 && d.whole[0] == '0')
    ensures decimals == None ==>
              Filter(NotComma, FmtDisplay(Written(d), kind, decimals)) ==
              Written(Decimal(d.negative, StripZeros(d.whole), Shown(d, DisplayDecimals(kind))))
  {
    DisplayIsPadded(d, kind, decimals);
    PaddedAddsOnlyZeros(d, Places(kind, decimals));
  }

  lemma PaddedAddsOnlyZeros(d: Decimal, places: Option<nat>)
    requires Digits(d.whole) && (d.frac.Some? ==> Digits(d.frac.value))
    ensures Filter(NotComma, FmtAmount(Written(d.(frac := Shown(d, places))))) ==
            Written(Decimal(d.negative, StripZeros(d.whole), Shown(d, places))) <==>
            !(places == Some(0) && d.frac.None? && |d.whole| > 1 && d.whole[0] == '0')
  {
    if places == Some(0) && d.frac.None? {
      BareDecimal(d);
    } else {
      ShownIsDigits(d, places);
      CommasAreAllThatIsAdded(d.(frac := Shown(d, places)));
    }
  }

  lemma ShownIsDigits(d: Decimal, places: Option<nat>)
    requires d.frac.Some? ==> Digits(d.frac.value)
    requires !(places == Some(0) && d.frac.None?)
    ensures Shown(d, places).Some? ==> Digits(Shown(d, places).value)
  {
  }

  /** An integer with a bare point is printed as it stands: not grouped, leading zeros and all. */
  lemma BareDecimal(d: Decimal)
    requires Digits(d.whole) && d.frac.None?
    ensures var e := d.(frac := Shown(d, Some(0)));
            Filter(NotComma, FmtAmount(Written(e))) ==
            Written(Decimal(d.negative, StripZeros(d.whole), Shown(d, Some(0)))) <==>
            !(|d.whole| > 1 && d.whole[0] == '0')
  {
    BareText(d.negative, d.whole);
    var t := Sign(d.negative) + d.whole + ".";
    NothingToTrim(t);
    FilterAll(NotComma, t);
    assert Fraction(Some("")) == ".";
    ShorterWritten(d);
  }

  lemma BareText(negative: bool, whole: string)
    requires Digits(whole)
    ensures var t := Sign(negative) + whole + ".";
            Match(t) == None && NoSpaces(t) && forall c :: c in t ==> NotComma(c)
  {
    PointIsNoNumber(negative, whole);
    var bare := whole + ".";
    Associative(Sign(negative), whole, ".");
    if negative {
      Minus(bare);
    } else {
      assert "" + bare == bare;
    }
  }

  lemma Minus(bare: string)
    requires Unsigned(true, bare) == None && NoSpaces(bare) && forall c :: c in bare ==> NotComma(c)
    ensures Match("-" + bare) == None && NoSpaces("-" + bare) && forall c :: c in "-" + bare ==> NotComma(c)
  {
    assert ("-" + bare)[1..] == bare;
  }

  lemma ShorterWritten(d: Decimal)
    requires Digits(d.whole) && d.frac.None?
    ensures Written(d.(frac := Some(""))) == Written(Decimal(d.negative, StripZeros(d.whole), Some(""))) <==>
            !(|d.whole| > 1 && d.whole[0] == '0')
  {
    StripZerosShortens(d.whole);
    if !(|d.whole| > 1 && d.whole[0] == '0') {
      CanonicalUnstripped(d.whole);
    }
  }

  lemma {:induction false} StripZerosShortens(s: string)
    requires Digits(s)
    ensures |StripZeros(s)| <= |s| && (|s| > 1 && s[0] == '0' ==> |StripZeros(s)| < |s|)
  {
    if |s| > 1 && s[0] == '0' {
      assert Digits(s[1..]);
      StripZerosShortens(s[1..]);
    }
  }

  lemma DisplayIsPadded(d: Decimal, kind: string, decimals: Option<nat>)
    requires Digits(d.whole) && (d.frac.Some? ==> Digits(d.frac.value))
    ensures FmtDisplay(Written(d), kind, decimals) ==
            FmtAmount(Written(d.(frac := Shown(d, Places(kind, decimals)))))
  {
    MatchWritten(d);
    WrittenHasNoSpaces(d);
    NothingToTrim(Written(d));
    if Places(kind, decimals).Some? {
      Associative(Sign(d.negative) + d.whole, ".", Shown(d, Places(kind, decimals)).value);
    } else {
      assert d.(frac := d.frac) == d;
    }
  }

  /** Without separators, an amount is shown with two places, with four for the two coins, or as it is. */
  lemma DisplayedAmount(s: string, kind: string)
    requires ValidAmount(s)
    ensures kind in {"play", "native", "note", "usd", "gwei"} ==>
              Filter(NotComma, FmtDisplay(s, kind, None)) == s + ".00"
    ensures kind in {"eth", "strk"} ==> Filter(NotComma, FmtDisplay(s, kind, None)) == s + ".0000"
    ensures kind !in {"play", "native", "note", "usd", "gwei", "eth", "strk"} ==>
              Filter(NotComma, FmtDisplay(s, kind, None)) == s
  {
    DisplayOfValid(s, kind, None);
    if DisplayDecimals(kind).Some? {
      TwoOrFourZeros(s);
      PaddedShown(s, DisplayDecimals(kind).value);
    } else {
      PlainShown(s, None);
      assert s + "" == s;
    }
  }

  lemma TwoOrFourZeros(s: string)
    ensures s + "." + Zeros(2) == s + ".00" && s + "." + Zeros(4) == s + ".0000"
  {
    assert Zeros(2) == "00" && Zeros(4) == "0000";
  }

  lemma PaddedShown(s: string, places: nat)
    requires ValidAmount(s) && places > 0
    ensures Filter(NotComma, FmtAmount(s + "." + Zeros(places))) == s + "." + Zeros(places)
  {
    var padded := FmtAmount(s + "." + Zeros(places));
    Associative(s, ".", Zeros(places));
    assert padded == FmtAmount(s + Fraction(Some(Zeros(places))));
    PlainShown(s, Some(Zeros(places)));
  }

  lemma PlainShown(s: string, frac: Option<string>)
    requires ValidAmount(s) && (frac.Some? ==> Digits(frac.value))
    ensures Filter(NotComma, FmtAmount(s + Fraction(frac))) == s + Fraction(frac)
  {
    var d := Decimal(false, s, frac);
    assert Written(d) == s + Fraction(frac);
    CommasAreAllThatIsAdded(d);
    CanonicalUnstripped(s);
  }

  /** The zeros do not change the number: `whole` keeps its value and the fraction is only scaled. */
  lemma ShownKeepsValue(d: Decimal, places: nat)
    requires Digits(d.whole) && (d.frac.Some? ==> Digits(d.frac.value))
    ensures Value(StripZeros(d.whole)) == Value(d.whole)
    ensures var frac := if d.frac.Some? then d.frac.value else "";
            var shown := Shown(d, Some(places)).value;
            && |shown| >= |frac|
            && (shown == "" || Digits(shown))
            && Value(shown) == Value(frac) * Pow10(|shown| - |frac|)
  {
    StripZerosKeepsValue(d.whole);
    var frac := if d.frac.Some? then d.frac.value else "";
    if |frac| < places {
      ZerosAreWorthless(places - |frac|);
      ValueConcat(frac, Zeros(places - |frac|));
    }
  }

  lemma {:induction false} ZerosAreWorthless(n: nat)
    ensures Zeros(n) == "" || Digits(Zeros(n))
    ensures Value(Zeros(n)) == 0
  {
    if n > 0 {
      assert Zeros(n)[..n - 1] == Zeros(n - 1);
      ZerosAreWorthless(n - 1);
    }
  }

  // ----- adding decimal strings

  function ToDecimal(n: nat): (s: string)
    ensures Digits(s)
  {
    var digit := (('0' as int) + n % 10) as char;
    if n < 10 then [digit] else ToDecimal(n / 10) + [digit]
  }

  lemma {:induction false} ToDecimalValue(n: nat)
    ensures Canonical(ToDecimal(n)) && Value(ToDecimal(n)) == n
    ensures n > 0 ==> ToDecimal(n)[0] != '0'
  {
    var s := ToDecimal(n);
    if n < 10 {
      assert s[..0] == "";
    } else {
      ToDecimalValue(n / 10);
      assert s[..|s| - 1] == ToDecimal(n / 10);
    }
  }

  datatype SumResult = Total(total: string) | Invalid(bad: string)

  ghost function SumOf(values: seq<string>): nat
    requires forall i :: 0 <= i < |values| ==> Digits(Trim(values[i]))
  {
    if values == [] then 0 else SumOf(values[..|values| - 1]) + Value(Trim(values[|values| - 1]))
  }

  /** Sums without loss at any size; the first value that is not a numeral is reported instead. */
  method SumDecimals(values: seq<string>) returns (r: SumResult)
    ensures r.Total? <==> forall i :: 0 <= i < |values| ==> Digits(Trim(values[i]))
    ensures r.Total? ==> Canonical(r.total) && Value(r.total) == SumOf(values)
    ensures r.Invalid? ==> exists i :: 0 <= i < |values| && Trim(values[i]) == r.bad && !Digits(r.bad) &&
                                       forall k :: 0 <= k < i ==> Digits(Trim(values[k]))
  {
    var total: nat := 0;
    for i := 0 to |values|
      invariant forall k :: 0 <= k < i ==> Digits(Trim(values[k]))
      invariant total == SumOf(values[..i])
    {
      assert values[..i + 1][..i] == values[..i];
      var s := Trim(values[i]);
      if !Digits(s) { return Invalid(s); }
      total := total + Value(s);
    }
    assert values[..|values|] == values;
    ToDecimalValue(total);
    return Total(ToDecimal(total));
  }

  /** A sum of one valid amount is that amount: the text is not changed on the way through. */
  lemma ToDecimalIsCanonical(s: string)
    requires Canonical(s)
    ensures ToDecimal(Value(s)) == s
  {
    ToDecimalValue(Value(s));
    CanonicalUnique(ToDecimal(Value(s)), s);
  }
}
