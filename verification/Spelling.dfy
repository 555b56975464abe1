/**
 How numbers and booleans are spelled and read, in terms of the characters alone: the digits are the
 ten of `TEN_DIGITS`, and a run of them is worth what reading it from the left gives.
 */
module Spelling {
  import opened Wrappers
  import opened Text
  import opened Values
  import opened Numerals
  import opened Emit

  const TEN_DIGITS := "0123456789"

  /** The place of a character among the ten digits. */
  function Worth(c: char): (d: nat)
    requires c in TEN_DIGITS
    ensures d < 10 && TEN_DIGITS[d] == c
  {
    var d :| 0 <= d < |TEN_DIGITS| && TEN_DIGITS[d] == c;
    d
  }

  predicate Numeric(s: string) {
    forall i :: 0 <= i < |s| ==> s[i] in TEN_DIGITS
  }

  /** Reading on from `acc`, left to right. */
  function ReadOn(acc: nat, s: string): nat
    requires Numeric(s)
    decreases |s|
  {
    if s == [] then acc else ReadOn(10 * acc + Worth(s[0]), s[1..])
  }

  lemma TenDigits(c: char)
    ensures IsDigit(c) <==> c in TEN_DIGITS
    ensures IsDigit(c) ==> Worth(c) == DigitValue(c)
  {
    if IsDigit(c) {
      var d := DigitValue(c);
      assert d < 10 && TEN_DIGITS[d] == c;
    }
  }

  lemma NumericDigits(s: string)
    ensures AllDigits(s) <==> Numeric(s)
  {
    forall i | 0 <= i < |s| ensures IsDigit(s[i]) <==> s[i] in TEN_DIGITS {
      TenDigits(s[i]);
    }
  }

  lemma {:induction false} ReadOnLast(acc: nat, s: string, c: char)
    requires Numeric(s) && Numeric(s + [c]) && c in TEN_DIGITS
    ensures ReadOn(acc, s + [c]) == 10 * ReadOn(acc, s) + Worth(c)
    decreases |s|
  {
    if s == [] {
      assert (s + [c])[1..] == [];
    } else {
      assert (s + [c])[1..] == s[1..] + [c];
      ReadOnLast(10 * acc + Worth(s[0]), s[1..], c);
    }
  }

  lemma {:induction false} DigitsRead(s: string)
    requires AllDigits(s)
    ensures Numeric(s) && DigitsValue(s) == ReadOn(0, s)
  {
    NumericDigits(s);
    if s != [] {
      var front, c := s[..|s| - 1], s[|s| - 1];
      assert s == front + [c];
      DigitsRead(front);
      TenDigits(c);
      ReadOnLast(0, front, c);
    }
  }

  // ----- integers

  predicate Sign(s: string) {
    s == "" || s == "+" || s == "-"
  }

  function Signed(sign: string, n: nat): int {
    if sign == "-" then -(n as int) else n
  }

  predicate SpellsInteger(s: string, sign: string, digits: string) {
    Sign(sign) && digits != "" && Numeric(digits) && s == sign + digits
  }

  /** A sign or none, then at least one digit: nothing else is an integer. */
  lemma IntegerRead(s: string)
    ensures ParseInt(s).Some? <==> exists sign, digits :: SpellsInteger(s, sign, digits)
    ensures forall sign, digits :: SpellsInteger(s, sign, digits) ==> ParseInt(s) == Some(Signed(sign, ReadOn(0, digits)))
  {
    hide ParseInt, SpellsInteger, ReadOn, Numeric;
    forall sign, digits | SpellsInteger(s, sign, digits)
      ensures Numeric(digits)
      ensures ParseInt(s) == Some(Signed(sign, ReadOn(0, digits)))
    {
      SpelledInteger(s, sign, digits);
    }
    if ParseInt(s).Some? {
      IntegerSplits(s);
    }
  }

  lemma IntegerSplits(s: string)
    requires ParseInt(s).Some?
    ensures exists sign, digits :: SpellsInteger(s, sign, digits)
  {
    hide DigitsValue, AllDigits, Numeric;
    var k := if s[0] == '-' || s[0] == '+' then 1 else 0;
    NumericDigits(s[k..]);
    assert s == s[..k] + s[k..];
    assert SpellsInteger(s, s[..k], s[k..]);
  }

  lemma SpelledInteger(s: string, sign: string, digits: string)
    requires SpellsInteger(s, sign, digits)
    ensures Numeric(digits)
    ensures ParseInt(s) == Some(Signed(sign, ReadOn(0, digits)))
  {
    NumericDigits(digits);
    DigitsRead(digits);
    hide ReadOn, DigitsValue, AllDigits;
    if sign == "" {
      assert sign + digits == digits;
      TenDigits(digits[0]);
    } else {
      assert (sign + digits)[1..] == digits && (sign + digits)[0] == sign[0];
    }
  }

  /** A minus for negative numbers only, digits, and no zero in front of another digit. */
  lemma IntegerSpelled(n: int)
    ensures var digits := if n < 0 then Itoa(n)[1..] else Itoa(n);
            && SpellsInteger(Itoa(n), if n < 0 then "-" else "", digits)
            && (|digits| > 1 ==> digits[0] != '0')
            && (n < 0 ==> digits != "0")
            && ReadOn(0, digits) == if n < 0 then -n else n
  {
    var m := if n < 0 then -n else n;
    NatTextValue(m);
    NatTextLeads(m);
    NumericDigits(NatText(m));
    DigitsRead(NatText(m));
    assert n < 0 ==> Itoa(n)[1..] == NatText(m);
    assert n >= 0 ==> "" + NatText(m) == NatText(m);
  }

  // ----- decimals

  predicate SpellsDecimal(s: string, sign: string, whole: string, fraction: string) {
    && Sign(sign) && whole + fraction != "" && Numeric(whole) && Numeric(fraction)
    && (s == sign + whole + "." + fraction || (fraction == "" && s == sign + whole))
  }

  /** The value is the digits without the point, and the scale the number of digits behind it. */
  lemma DecimalRead(s: string)
    ensures ParseNumeral(s).Some? <==> exists sign, whole, fraction :: SpellsDecimal(s, sign, whole, fraction)
    ensures forall sign, whole, fraction :: SpellsDecimal(s, sign, whole, fraction) ==>
              && Numeric(whole + fraction)
              && ParseNumeral(s) == Some(Numeral(Signed(sign, ReadOn(0, whole + fraction)), |fraction|))
  {
    hide ParseNumeral, SpellsDecimal, ReadOn, Numeric;
    forall sign, whole, fraction | SpellsDecimal(s, sign, whole, fraction)
      ensures Numeric(whole + fraction)
      ensures ParseNumeral(s) == Some(Numeral(Signed(sign, ReadOn(0, whole + fraction)), |fraction|))
    {
      SpelledDecimal(s, sign, whole, fraction);
    }
    if ParseNumeral(s).Some? {
      DecimalSplits(s);
    }
  }

  /** A number without its sign. */
  lemma BodyRead(whole: string, rest: string, fraction: string)
    requires Numeric(whole + fraction) && whole + fraction != "" && whole + rest != ""
    requires rest == "." + fraction || (rest == "" && fraction == "")
    ensures (whole + rest)[0] != '-' && (whole + rest)[0] != '+'
    ensures ParseNumeral(whole + rest) == Some(Numeral(ReadOn(0, whole + fraction), |fraction|))
  {
    hide ReadOn, DigitsValue, Worth;
    var body := whole + rest;
    NumericDigits(whole + fraction);
    DigitsRead(whole + fraction);
    DigitsPrefix(whole, fraction);
    DotAfter(whole, rest);
    SumParts(whole, rest);
    if whole != "" {
      assert IsDigit(whole[0]);
    }
    hide IndexOfDot, AllDigits, Numeric;
    if rest == "" {
      assert rest[..] == "" && body == whole && whole + fraction == whole;
      NoDot();
    } else {
      SumFrom(whole, rest);
      assert rest[1..] == fraction;
      DotFirst(rest);
    }
  }

  lemma DotFirst(s: string)
    requires s != "" && s[0] == '.'
    ensures IndexOfDot(s) == 0
  {
  }

  lemma NoDot()
    ensures IndexOfDot("") == 0
  {
  }

  lemma SignTaken(sign: string, body: string)
    requires Sign(sign) && body != "" && body[0] != '-' && body[0] != '+' && ParseNumeral(body).Some?
    ensures ParseNumeral(sign + body).Some?
    ensures ParseNumeral(sign + body).value ==
            ParseNumeral(body).value.(unscaled := if sign == "-" then -ParseNumeral(body).value.unscaled else ParseNumeral(body).value.unscaled)
  {
    hide IndexOfDot, DigitsValue, AllDigits;
    if sign == "" {
      assert sign + body == body;
    } else {
      SumParts(sign, body);
      assert (sign + body)[0] == sign[0] && (sign + body)[1..] == body;
    }
  }

  lemma SpelledDecimal(s: string, sign: string, whole: string, fraction: string)
    requires SpellsDecimal(s, sign, whole, fraction)
    ensures Numeric(whole + fraction)
    ensures ParseNumeral(s) == Some(Numeral(Signed(sign, ReadOn(0, whole + fraction)), |fraction|))
  {
    hide ParseNumeral, ReadOn, Numeric;
    var rest := if s == sign + whole + "." + fraction then "." + fraction else "";
    Grouped(s, sign, whole, rest, fraction);
    JoinNumeric(whole, fraction);
    BodyRead(whole, rest, fraction);
    SignTaken(sign, whole + rest);
  }

  lemma Grouped(s: string, sign: string, whole: string, rest: string, fraction: string)
    requires (s == sign + whole + "." + fraction && rest == "." + fraction) || (s == sign + whole && rest == "")
    ensures s == sign + (whole + rest)
  {
  }

  lemma JoinNumeric(a: string, b: string)
    requires Numeric(a) && Numeric(b)
    ensures Numeric(a + b)
  {
  }

  lemma DecimalSplits(s: string)
    requires ParseNumeral(s).Some?
    ensures exists sign, whole, fraction :: SpellsDecimal(s, sign, whole, fraction)
  {
    hide DigitsValue, IndexOfDot, AllDigits;
    var k := if s != [] && (s[0] == '-' || s[0] == '+') then 1 else 0;
    var body := s[k..];
    var dot := IndexOfDot(body);
    DotFound(body);
    var whole := body[..dot];
    var fraction := if dot < |body| then body[dot + 1..] else [];
    assert whole + fraction != "" && AllDigits(whole + fraction);
    assert Sign(s[..k]) && s == s[..k] + body;
    hide ParseNumeral;
    NumericDigits(whole + fraction);
    NumericParts(whole, fraction);
    hide Numeric;
    Rejoined(s, s[..k], body, dot);
    assert SpellsDecimal(s, s[..k], whole, fraction);
  }

  lemma DotFound(s: string)
    ensures IndexOfDot(s) < |s| ==> s[IndexOfDot(s)] == '.'
  {
  }

  lemma Rejoined(s: string, sign: string, body: string, dot: nat)
    requires s == sign + body && dot <= |body| && (dot < |body| ==> body[dot] == '.')
    ensures if dot < |body| then s == sign + body[..dot] + "." + body[dot + 1..] else s == sign + body[..dot]
  {
  }

  lemma NumericParts(a: string, b: string)
    requires Numeric(a + b)
    ensures Numeric(a) && Numeric(b)
  {
    forall i | 0 <= i < |a| ensures a[i] in TEN_DIGITS {
      assert (a + b)[i] == a[i];
    }
    forall i | 0 <= i < |b| ensures b[i] in TEN_DIGITS {
      assert (a + b)[|a| + i] == b[i];
    }
  }

  /**
   Plain text: a minus for negative values only, the whole part without idle zeros, and exactly as
   many decimals as the scale says, with no point when it is 0.
   */
  lemma DecimalSpelled(x: Numeral)
    ensures exists whole, fraction ::
              && SpellsDecimal(PlainText(x), if x.unscaled < 0 then "-" else "", whole, fraction)
              && whole != "" && (|whole| > 1 ==> whole[0] != '0')
              && |fraction| == x.scale && (x.scale == 0 ==> '.' !in PlainText(x))
              && ReadOn(0, whole + fraction) == if x.unscaled < 0 then -x.unscaled else x.unscaled
  {
    var m := if x.unscaled < 0 then -x.unscaled else x.unscaled;
    var padded := PaddedDigits(x);
    PaddedReads(x);
    PaddedLeads(x);
    DigitsRead(padded);
    hide PaddedDigits, ReadOn, DigitsValue, AllDigits;
    var cut := |padded| - x.scale;
    var whole, fraction := padded[..cut], padded[cut..];
    assert padded == whole + fraction;
    NumericParts(whole, fraction);
    var sign := if x.unscaled < 0 then "-" else "";
    assert PlainText(x) == sign + Pointed(whole, fraction);
    hide PlainText;
    PointedSpells(sign, whole, fraction);
    assert SpellsDecimal(PlainText(x), sign, whole, fraction);
  }

  lemma PointedSpells(sign: string, whole: string, fraction: string)
    requires Sign(sign) && sign != "+" && whole != "" && Numeric(whole) && Numeric(fraction)
    ensures SpellsDecimal(sign + Pointed(whole, fraction), sign, whole, fraction)
    ensures fraction == "" ==> '.' !in sign + Pointed(whole, fraction)
  {
    if fraction == "" {
      assert sign + Pointed(whole, fraction) == sign + whole;
      assert '.' !in whole && '.' !in sign;
    } else {
      assert sign + Pointed(whole, fraction) == sign + whole + "." + fraction;
    }
  }

  /** Zeros are put in front only as far as the one before the point. */
  lemma PaddedLeads(x: Numeral)
    ensures |PaddedDigits(x)| - x.scale > 1 ==> PaddedDigits(x)[0] != '0'
  {
    NatTextLeads(if x.unscaled < 0 then -x.unscaled else x.unscaled);
  }

  // ----- booleans

  /** A word with its capitals made small. */
  function Small(s: string): string {
    if s == [] then [] else [SmallLetter(s[0])] + Small(s[1..])
  }

  function SmallLetter(c: char): char {
    if 'A' <= c <= 'Z' then c - 'A' + 'a' else c
  }

  lemma {:induction false} SmallAt(s: string)
    ensures |Small(s)| == |s| && forall i :: 0 <= i < |s| ==> Small(s)[i] == SmallLetter(s[i])
  {
    if s != [] {
      SmallAt(s[1..]);
    }
  }

  /** The word true in any letter case is true, and everything else is false. */
  lemma BooleanRead(s: string)
    ensures ParseValue(TBool, s) == Some(BoolV(Small(s) == "true"))
  {
    SmallAt(s);
    if |s| == 4 {
      SmallOnly(s[0], 't');
      SmallOnly(s[1], 'r');
      SmallOnly(s[2], 'u');
      SmallOnly(s[3], 'e');
      assert Small(s) == [SmallLetter(s[0]), SmallLetter(s[1]), SmallLetter(s[2]), SmallLetter(s[3])];
      assert "tT"[0] == 't' && "rR"[0] == 'r' && "uU"[0] == 'u' && "eE"[0] == 'e';
    }
  }

  lemma SmallOnly(c: char, small: char)
    requires 'a' <= small <= 'z'
    ensures SmallLetter(c) == small <==> c in [small, small - 'a' + 'A']
  {
  }
}
