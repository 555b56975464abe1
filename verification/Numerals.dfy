/** Decimal numerals: their values, their normal forms, and the text they are written as. */
module Numerals {
  import opened Wrappers
  import opened Text
  import opened Values
  import opened Emit

  // ----- values

  lemma PowPositive(n: nat)
    ensures Pow10(n) > 0
  {
  }

  lemma {:induction false} PowSum(a: nat, b: nat)
    ensures Pow10(a + b) == Pow10(a) * Pow10(b)
  {
    if a > 0 {
      PowSum(a - 1, b);
      assert Pow10(a + b) == 10 * (Pow10(a - 1) * Pow10(b));
    }
  }

  lemma Cancel(a: int, b: int, k: int)
    requires k > 0
    ensures a * k == b * k ==> a == b
  {
    if a < b {
      assert (b - a) * k > 0;
    } else if a > b {
      assert (a - b) * k > 0;
    }
  }

  /** Two numerals have one value exactly when the shorter, scaled up, is the longer. */
  lemma SameValueScaled(x: Numeral, y: Numeral)
    requires x.scale <= y.scale
    ensures CompareNumeral(x, y) == 0 <==> x.unscaled * Pow10(y.scale - x.scale) == y.unscaled
    ensures CompareNumeral(y, x) == 0 <==> x.unscaled * Pow10(y.scale - x.scale) == y.unscaled
  {
    var k := Pow10(y.scale - x.scale);
    PowSum(y.scale - x.scale, x.scale);
    PowPositive(x.scale);
    assert x.unscaled * Pow10(y.scale) == x.unscaled * k * Pow10(x.scale);
    if x.unscaled * Pow10(y.scale) == y.unscaled * Pow10(x.scale) {
      Cancel(x.unscaled * k, y.unscaled, Pow10(x.scale));
    }
  }

  lemma ShiftedEnds(u: int, n: nat)
    requires n > 0
    ensures (u * Pow10(n)) % 10 == 0
  {
    ShiftTen(u, Pow10(n - 1));
    TenDivides(u * Pow10(n - 1));
  }

  lemma ShiftTen(u: int, m: nat)
    ensures u * (10 * m) == 10 * (u * m)
  {
  }

  lemma TenDivides(z: int)
    ensures (10 * z) % 10 == 0
  {
  }

  /** A value has one numeral without trailing zeros. */
  lemma NormalUnique(x: Numeral, y: Numeral)
    requires Normal(x) && Normal(y) && CompareNumeral(x, y) == 0
    ensures x == y
  {
    if x.scale <= y.scale {
      SameValueScaled(x, y);
      if x.scale < y.scale {
        ShiftedEnds(x.unscaled, y.scale - x.scale);
      }
    } else {
      SameValueScaled(y, x);
      ShiftedEnds(y.unscaled, x.scale - y.scale);
    }
  }

  lemma ExactQuotient(u: int, k: int, q: int)
    requires k > 0
    ensures u == q * k <==> u % k == 0 && u / k == q
  {
    var d, m := u / k, u % k;
    assert u == d * k + m;
    SmallMultiple(q - d, k, m);
    assert (q - d) * k == q * k - d * k;
  }

  lemma SmallMultiple(z: int, k: int, m: int)
    requires 0 <= m < k
    ensures z * k == m <==> z == 0 && m == 0
  {
    if z > 0 {
      assert z * k >= k;
    } else if z < 0 {
      assert z * k <= -k;
    }
  }

  // ----- text

  lemma {:induction false} ZerosValue(s: string)
    requires forall i :: 0 <= i < |s| ==> s[i] == '0'
    ensures AllDigits(s) && DigitsValue(s) == 0
  {
    if s != [] {
      ZerosValue(s[..|s| - 1]);
    }
  }

  /** Leading zeros do not count. */
  lemma {:induction false} PaddedValue(zeros: string, digits: string)
    requires AllDigits(digits) && forall i :: 0 <= i < |zeros| ==> zeros[i] == '0'
    ensures AllDigits(zeros + digits) && DigitsValue(zeros + digits) == DigitsValue(digits)
  {
    if digits == [] {
      assert zeros + digits == zeros;
      ZerosValue(zeros);
    } else {
      var front := digits[..|digits| - 1];
      PaddedValue(zeros, front);
      assert (zeros + digits)[..|zeros + digits| - 1] == zeros + front;
    }
  }

  lemma {:induction false} DotAfter(whole: string, rest: string)
    requires AllDigits(whole)
    ensures IndexOfDot(whole + rest) == |whole| + IndexOfDot(rest)
  {
    if whole == [] {
      assert whole + rest == rest;
    } else {
      assert (whole + rest)[1..] == whole[1..] + rest;
      DotAfter(whole[1..], rest);
    }
  }

  lemma DigitsPrefix(a: string, b: string)
    requires AllDigits(a + b)
    ensures AllDigits(a)
  {
    assert forall i :: 0 <= i < |a| ==> a[i] == (a + b)[i];
  }

  lemma PointedParts(whole: string, fraction: string)
    requires whole != "" && AllDigits(whole + fraction)
    ensures var body := Pointed(whole, fraction);
            && IsDigit(body[0]) && IndexOfDot(body) == |whole| && body[..|whole|] == whole
            && (if |whole| < |body| then body[|whole| + 1..] else []) == fraction
  {
    var tail := if fraction == "" then "" else "." + fraction;
    DigitsPrefix(whole, fraction);
    DotAfter(whole, tail);
    assert IndexOfDot(tail) == 0;
    assert IsDigit(whole[0]);
    hide AllDigits, IndexOfDot;
    SumParts(whole, tail);
    if fraction != "" {
      SumParts(".", fraction);
      SumFrom(whole, tail);
    }
  }

  lemma SumParts(a: string, b: string)
    ensures (a + b)[..|a|] == a && (a + b)[|a|..] == b
    ensures a != "" ==> (a + b)[0] == a[0]
  {
  }

  lemma SumFrom(a: string, b: string)
    requires b != ""
    ensures (a + b)[|a| + 1..] == b[1..]
  {
  }

  lemma UnsignedReadsBack(whole: string, fraction: string)
    requires whole != "" && AllDigits(whole + fraction)
    ensures ParseNumeral(Pointed(whole, fraction)) == Some(Numeral(DigitsValue(whole + fraction), |fraction|))
  {
    hide Pointed, IndexOfDot, DigitsValue, AllDigits;
    PointedParts(whole, fraction);
  }

  lemma NegatedReadsBack(whole: string, fraction: string)
    requires whole != "" && AllDigits(whole + fraction)
    ensures ParseNumeral("-" + Pointed(whole, fraction)) == Some(Numeral(-(DigitsValue(whole + fraction) as int), |fraction|))
  {
    hide Pointed, IndexOfDot, DigitsValue, AllDigits;
    PointedParts(whole, fraction);
    assert ("-" + Pointed(whole, fraction))[1..] == Pointed(whole, fraction);
  }

  lemma PaddedReads(x: Numeral)
    ensures AllDigits(PaddedDigits(x))
    ensures DigitsValue(PaddedDigits(x)) == if x.unscaled < 0 then -x.unscaled else x.unscaled
  {
    var digits := NatText(if x.unscaled < 0 then -x.unscaled else x.unscaled);
    NatTextValue(if x.unscaled < 0 then -x.unscaled else x.unscaled);
    if |digits| <= x.scale {
      PaddedValue(Zeros(x.scale + 1 - |digits|), digits);
    }
  }

  /** BigDecimal's plain text parses back to the same unscaled value and the same scale. */
  lemma PlainTextRoundTrip(x: Numeral)
    ensures ParseNumeral(PlainText(x)) == Some(x)
  {
    PaddedReads(x);
    hide PaddedDigits, Pointed, ParseNumeral, AllDigits, DigitsValue;
    var padded := PaddedDigits(x);
    var cut := |padded| - x.scale;
    var whole, fraction := padded[..cut], padded[cut..];
    assert whole + fraction == padded;
    if x.unscaled < 0 {
      NegatedReadsBack(whole, fraction);
    } else {
      UnsignedReadsBack(whole, fraction);
      assert "" + Pointed(whole, fraction) == Pointed(whole, fraction);
    }
  }

  // ----- fractions

  lemma TimesTen(x: nat, m: nat)
    ensures x * (10 * m) == x * m * 10
  {
  }

  lemma {:induction false} DigitsAppend(a: string, b: string)
    requires AllDigits(a) && AllDigits(b)
    ensures AllDigits(a + b) && DigitsValue(a + b) == DigitsValue(a) * Pow10(|b|) + DigitsValue(b)
  {
    if b == [] {
      assert a + b == a;
    } else {
      var front := b[..|b| - 1];
      DigitsAppend(a, front);
      assert (a + b)[..|a + b| - 1] == a + front && (a + b)[|a + b| - 1] == b[|b| - 1];
      assert Pow10(|b|) == 10 * Pow10(|front|);
      assert DigitsValue(b) == DigitsValue(front) * 10 + DigitValue(b[|b| - 1]);
      hide Pow10, DigitValue;
      assert DigitsValue(a + b) == DigitsValue(a + front) * 10 + DigitValue(b[|b| - 1]);
      hide DigitsValue;
      LastDigit(DigitsValue(a + front), DigitsValue(a), Pow10(|front|), DigitsValue(front), DigitValue(b[|b| - 1]));
    }
  }

  lemma LastDigit(all: nat, a: nat, m: nat, front: nat, d: nat)
    requires all == a * m + front
    ensures all * 10 + d == a * (10 * m) + (front * 10 + d)
  {
    TimesTen(a, m);
  }

  /** The decimal digits of rem/denom, at most `places` of them. */
  function FractionDigits(rem: nat, denom: nat, places: nat): string
    requires rem < denom
    decreases places
  {
    if rem == 0 || places == 0 then ""
    else [Digit(rem * 10 / denom)] + FractionDigits(rem * 10 % denom, denom, places - 1)
  }

  /** Shortest form of k/denom for the small dyadic fractions the generator draws. */
  function FractionText(k: nat, denom: nat): string
    requires denom > 0
  {
    Pointed(NatText(k / denom), FractionDigits(k % denom, denom, 6))
  }

  lemma ShiftQuotient(rem: nat, denom: nat, q: nat, r: nat, m: nat, d: int)
    requires rem * 10 == q * denom + r && rem * (10 * m) == d * denom
    ensures r * m == (d - q * m) * denom
  {
    assert rem * (10 * m) == (q * denom + r) * m;
    assert (q * denom + r) * m == r * m + q * m * denom;
  }

  lemma DivMod(a: nat, d: nat)
    requires d > 0
    ensures a == (a / d) * d + a % d
  {
  }

  lemma NoQuotient(rem: nat, denom: nat, d: int)
    requires rem < denom
    ensures rem == d * denom ==> rem == 0
  {
    SmallMultiple(d, denom, rem);
  }

  lemma QuotientBelow(q: nat, d: nat, b: nat)
    ensures q * d < b * d ==> q < b
  {
    if q >= b {
      assert (q - b) * d >= 0;
    }
  }

  lemma DigitInFront(rem: nat, denom: nat, q: nat, r: nat, rest: string)
    requires rem * 10 == q * denom + r && q < 10
    requires AllDigits(rest) && DigitsValue(rest) * denom == r * Pow10(|rest|)
    ensures AllDigits([Digit(q)] + rest)
    ensures DigitsValue([Digit(q)] + rest) * denom == rem * Pow10(|rest| + 1)
  {
    hide DigitsValue, AllDigits, Digit;
    OneDigit(q);
    DigitsAppend([Digit(q)], rest);
    FractionSum(rem, denom, q, r, Pow10(|rest|), DigitsValue(rest));
  }

  /** When the digits suffice, rem * 10^places being `d` times the denominator, they are the fraction. */
  lemma {:induction false} FractionExact(rem: nat, denom: nat, places: nat, d: int)
    requires rem < denom && rem * Pow10(places) == d * denom
    ensures AllDigits(FractionDigits(rem, denom, places))
    ensures DigitsValue(FractionDigits(rem, denom, places)) * denom == rem * Pow10(|FractionDigits(rem, denom, places)|)
    decreases places
  {
    if rem == 0 {
    } else if places == 0 {
      NoQuotient(rem, denom, d);
    } else {
      var q, r := rem * 10 / denom, rem * 10 % denom;
      DivMod(rem * 10, denom);
      QuotientBelow(q, denom, 10);
      ShiftQuotient(rem, denom, q, r, Pow10(places - 1), d);
      var e := d - q * Pow10(places - 1);
      FractionExact(r, denom, places - 1, e);
      hide Pow10, AllDigits, DigitsValue, Digit;
      DigitInFront(rem, denom, q, r, FractionDigits(r, denom, places - 1));
    }
  }

  lemma OneDigit(q: nat)
    requires q < 10
    ensures AllDigits([Digit(q)]) && DigitsValue([Digit(q)]) == q
  {
    assert [Digit(q)][..0] == [];
  }

  lemma FractionSum(rem: nat, denom: nat, q: nat, r: nat, m: nat, v: nat)
    requires rem * 10 == q * denom + r && v * denom == r * m
    ensures (q * m + v) * denom == rem * (10 * m)
  {
    assert (q * m + v) * denom == (q * denom) * m + v * denom;
    assert rem * (10 * m) == (q * denom + r) * m;
  }

  /** The text parses to a numeral of the value k/denom, when the denominator divides 10^6 by `d`. */
  lemma FractionParses(k: nat, denom: nat, d: nat)
    requires denom > 0 && Pow10(6) == d * denom
    ensures ParseNumeral(FractionText(k, denom)).Some?
    ensures var x := ParseNumeral(FractionText(k, denom)).value; x.unscaled * denom == k * Pow10(x.scale)
  {
    hide FractionDigits, ParseNumeral, Pow10, DigitsValue, NatText, AllDigits, Pointed;
    var whole, rem := k / denom, k % denom;
    var f := FractionDigits(rem, denom, 6);
    DivMod(k, denom);
    ScaledMultiple(rem, Pow10(6), d, denom);
    FractionExact(rem, denom, 6, rem * d);
    NatTextValue(whole);
    DigitsAppend(NatText(whole), f);
    UnsignedReadsBack(NatText(whole), f);
    FractionWhole(k, denom, whole, rem, Pow10(|f|), DigitsValue(f));
  }

  /** The text denotes k/denom. */
  predicate Denotes(s: string, k: nat, denom: nat) {
    ParseNumeral(s).Some? &&
    var x := ParseNumeral(s).value; x.unscaled * denom == k * Pow10(x.scale)
  }

  /** A number below 10^p prints in at most `p` digits. */
  lemma {:induction false} TextLength(n: nat, p: nat)
    requires p > 0 && n < Pow10(p)
    ensures |NatText(n)| <= p
  {
    if n >= 10 {
      TextLength(n / 10, p - 1);
    }
  }

  /** One digit on each side of the point. */
  lemma TenthsParse(a: nat, b: nat)
    requires a < 10 && b < 10
    ensures ParseNumeral([Digit(a), '.', Digit(b)]) == Some(Numeral(10 * a + b, 1))
  {
    hide ParseNumeral, IndexOfDot, DigitsValue, AllDigits;
    OneDigit(a);
    OneDigit(b);
    DigitsAppend([Digit(a)], [Digit(b)]);
    assert Pow10(1) == 10 * Pow10(0);
    UnsignedReadsBack([Digit(a)], [Digit(b)]);
    assert Pointed([Digit(a)], [Digit(b)]) == [Digit(a), '.', Digit(b)];
  }

  /** Whole and two decimal places, as a numeral of scale 2. */
  lemma CentsParse(whole: nat, cents: nat)
    requires whole < 1000 && cents < 100
    ensures ParseNumeral(NatText(whole) + "." + [Digit(cents / 10), Digit(cents % 10)]) == Some(Numeral(whole * 100 + cents, 2))
    ensures FitsDecimal(Numeral(whole * 100 + cents, 2), 9, 2)
  {
    var f := [Digit(cents / 10), Digit(cents % 10)];
    NatTextValue(whole);
    OneDigit(cents / 10);
    OneDigit(cents % 10);
    DigitsAppend([Digit(cents / 10)], [Digit(cents % 10)]);
    assert f == [Digit(cents / 10)] + [Digit(cents % 10)];
    assert Pow10(1) == 10 && Pow10(2) == 100;
    DigitsAppend(NatText(whole), f);
    UnsignedReadsBack(NatText(whole), f);
    assert Pointed(NatText(whole), f) == NatText(whole) + "." + f;
    assert Pow10(9) == 1_000_000_000;
    TextLength(whole * 100 + cents, 9);
  }

  // ----- one text for one value

  /** A non-negative decimal in its shortest form, such as 0.125 or 12. */
  predicate IsShortest(whole: string, fraction: string) {
    && whole != "" && AllDigits(whole) && (|whole| > 1 ==> whole[0] != '0')
    && AllDigits(fraction) && (fraction != "" ==> fraction[|fraction| - 1] != '0')
  }

  function WholePart(s: string): string {
    s[..IndexOfDot(s)]
  }

  function FractionPart(s: string): string {
    if IndexOfDot(s) < |s| then s[IndexOfDot(s) + 1..] else ""
  }

  predicate ShortestText(s: string) {
    IsShortest(WholePart(s), FractionPart(s)) && s == Pointed(WholePart(s), FractionPart(s))
  }

  lemma DigitsJoin(a: string, b: string)
    requires AllDigits(a) && AllDigits(b)
    ensures AllDigits(a + b)
  {
  }

  lemma ShortestNormal(whole: string, fraction: string)
    requires IsShortest(whole, fraction)
    ensures AllDigits(whole + fraction) && Normal(Numeral(DigitsValue(whole + fraction), |fraction|))
  {
    DigitsJoin(whole, fraction);
    if fraction != "" {
      assert (whole + fraction)[|whole + fraction| - 1] == fraction[|fraction| - 1];
    }
  }

  /** A shortest text is a numeral without trailing zeros. */
  lemma ShortestParses(s: string)
    requires ShortestText(s)
    ensures AllDigits(WholePart(s) + FractionPart(s))
    ensures ParseNumeral(s) == Some(Numeral(DigitsValue(WholePart(s) + FractionPart(s)), |FractionPart(s)|))
    ensures Normal(ParseNumeral(s).value)
  {
    ShortestNormal(WholePart(s), FractionPart(s));
    hide ParseNumeral, Pointed, WholePart, FractionPart, DigitsValue, AllDigits;
    UnsignedReadsBack(WholePart(s), FractionPart(s));
  }

  lemma SumLast(a: string, f: string)
    requires f != ""
    ensures (a + f)[..|a + f| - 1] == a + f[..|f| - 1]
    ensures (a + f)[|a + f| - 1] == f[|f| - 1] && f == f[..|f| - 1] + [f[|f| - 1]]
  {
  }

  /** Digits after the point are told by the value, given how many they are. */
  lemma {:induction false} SameDigits(a: string, b: string, f: string, g: string)
    requires AllDigits(a) && AllDigits(b) && AllDigits(f) && AllDigits(g) && |f| == |g|
    requires AllDigits(a + f) && AllDigits(b + g) && DigitsValue(a + f) == DigitsValue(b + g)
    ensures f == g && DigitsValue(a) == DigitsValue(b)
  {
    if f == "" {
      assert a + f == a && b + g == b;
    } else {
      SumLast(a, f);
      SumLast(b, g);
      SameDigits(a, b, f[..|f| - 1], g[..|g| - 1]);
    }
  }

  lemma {:induction false} LeadingPositive(s: string)
    requires AllDigits(s) && s != "" && s[0] != '0'
    ensures DigitsValue(s) > 0
  {
    if |s| > 1 {
      LeadingPositive(s[..|s| - 1]);
    }
  }

  /** Without leading zeros a number has one text. */
  lemma {:induction false} LeadingUnique(a: string, b: string)
    requires AllDigits(a) && AllDigits(b) && a != "" && b != ""
    requires (|a| > 1 ==> a[0] != '0') && (|b| > 1 ==> b[0] != '0')
    requires DigitsValue(a) == DigitsValue(b)
    ensures a == b
  {
    var i, j := a[..|a| - 1], b[..|b| - 1];
    if |i| > 0 {
      LeadingPositive(i);
    }
    if |j| > 0 {
      LeadingPositive(j);
    }
    if |i| > 0 && |j| > 0 {
      LeadingUnique(i, j);
    }
    assert a == i + [a[|a| - 1]] && b == j + [b[|b| - 1]];
  }

  /** Two shortest texts of one value are one text. */
  lemma ShortestUnique(a: string, b: string)
    requires ShortestText(a) && ShortestText(b)
    ensures ParseNumeral(a).Some? && ParseNumeral(b).Some?
    ensures CompareNumeral(ParseNumeral(a).value, ParseNumeral(b).value) == 0 <==> a == b
  {
    ShortestParses(a);
    ShortestParses(b);
    if CompareNumeral(ParseNumeral(a).value, ParseNumeral(b).value) == 0 {
      NormalUnique(ParseNumeral(a).value, ParseNumeral(b).value);
      SameShortest(a, b);
    }
  }

  lemma SameShortest(a: string, b: string)
    requires ShortestText(a) && ShortestText(b) && ParseNumeral(a) == ParseNumeral(b)
    ensures a == b
  {
    ShortestParses(a);
    ShortestParses(b);
    hide ParseNumeral, Pointed, WholePart, FractionPart, DigitsValue, AllDigits;
    SameDigits(WholePart(a), WholePart(b), FractionPart(a), FractionPart(b));
    LeadingUnique(WholePart(a), WholePart(b));
  }

  lemma {:induction false} NatTextLeads(n: nat)
    ensures |NatText(n)| > 1 ==> NatText(n)[0] != '0'
    ensures n > 0 ==> NatText(n)[0] != '0'
  {
    if n >= 10 {
      NatTextLeads(n / 10);
    }
  }

  /** The digits of an exact fraction do not end in a zero. */
  lemma {:induction false} FractionEnds(rem: nat, denom: nat, places: nat, d: int)
    requires rem < denom && rem * Pow10(places) == d * denom
    ensures var f := FractionDigits(rem, denom, places); f != "" ==> f[|f| - 1] != '0'
    decreases places
  {
    if rem != 0 && places != 0 {
      var q, r := rem * 10 / denom, rem * 10 % denom;
      DivMod(rem * 10, denom);
      QuotientBelow(q, denom, 10);
      ShiftQuotient(rem, denom, q, r, Pow10(places - 1), d);
      FractionEnds(r, denom, places - 1, d - q * Pow10(places - 1));
      if r == 0 {
        assert q * denom > 0;
      } else if places == 1 {
        NoQuotient(r, denom, d - q);
      }
    }
  }

  lemma FractionShortest(k: nat, denom: nat, d: nat)
    requires denom > 0 && Pow10(6) == d * denom
    ensures ShortestText(FractionText(k, denom))
  {
    hide FractionDigits, ParseNumeral, Pow10, DigitsValue, NatText, AllDigits, Pointed, IndexOfDot;
    var whole, f := NatText(k / denom), FractionDigits(k % denom, denom, 6);
    ScaledMultiple(k % denom, Pow10(6), d, denom);
    FractionExact(k % denom, denom, 6, (k % denom) * d);
    FractionEnds(k % denom, denom, 6, (k % denom) * d);
    NatTextValue(k / denom);
    NatTextLeads(k / denom);
    DigitsJoin(whole, f);
    PointedParts(whole, f);
    assert f == "" || |whole| < |Pointed(whole, f)|;
  }

  lemma ScaledMultiple(a: nat, b: nat, d: nat, e: nat)
    requires b == d * e
    ensures a * b == (a * d) * e
  {
  }

  lemma FractionWhole(k: nat, denom: nat, whole: nat, rem: nat, m: nat, v: nat)
    requires k == whole * denom + rem && v * denom == rem * m
    ensures (whole * m + v) * denom == k * m
  {
    assert (whole * m + v) * denom == (whole * denom) * m + v * denom;
  }
}
