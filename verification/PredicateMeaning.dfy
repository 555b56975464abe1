/**
 What the predicate words say, told in the order of the values themselves: numbers by their value,
 strings by the first character that differs, false before true. The matcher and the lowered
 expression are proved to say it.
 */
module PredicateMeaning {
  import opened Wrappers
  import opened Text
  import opened Values
  import opened Numerals
  import opened Emit
  import opened Predicates

  // ----- literals and their order

  /** What an author means by a literal. */
  datatype Meant = AnInteger(n: int) | ANumber(y: Numeral) | AText(t: string) | ATruth(b: bool)

  /** How it is written. */
  function Written(m: Meant): string {
    match m
    case AnInteger(n) => Itoa(n)
    case ANumber(y) => PlainText(y)
    case AText(t) => t
    case ATruth(b) => if b then "true" else "false"
  }

  /** A literal this column type can read. */
  predicate Readable(ty: PType, m: Meant) {
    match ty
    case TBool => m.ATruth?
    case TInt => m.AnInteger? && -2147483648 <= m.n <= 2147483647
    case TLong => m.AnInteger? && -9223372036854775808 <= m.n <= 9223372036854775807
    case TFloat => m.ANumber?
    case TDouble => m.ANumber?
    case TString => m.AText?
    case TDecimal(_, _) => m.ANumber?
  }

  /** A value a column of this type holds, and a literal it can read. */
  predicate Comparable(ty: PType, have: Value, m: Meant) {
    && Readable(ty, m)
    && match ty
       case TBool => have.BoolV?
       case TInt => have.IntV?
       case TLong => have.LongV?
       case TFloat => have.FloatV?
       case TDouble => have.DoubleV?
       case TString => have.StrV?
       case TDecimal(_, _) => have.DecV?
  }

  /** At the first place where they differ the one string ends, or has the smaller character. */
  ghost predicate Before(a: string, b: string) {
    exists k :: 0 <= k <= |a| && k < |b| && a[..k] == b[..k] && (k == |a| || a[k] < b[k])
  }

  /** The value is less than what the literal means. */
  ghost predicate Less(have: Value, m: Meant) {
    match have
    case BoolV(b) => m.ATruth? && !b && m.b
    case IntV(n) => m.AnInteger? && n < m.n
    case LongV(n) => m.AnInteger? && n < m.n
    case FloatV(x) => m.ANumber? && x.unscaled * Pow10(m.y.scale) < m.y.unscaled * Pow10(x.scale)
    case DoubleV(x) => m.ANumber? && x.unscaled * Pow10(m.y.scale) < m.y.unscaled * Pow10(x.scale)
    case StrV(s) => m.AText? && Before(s, m.t)
    case DecV(x) => m.ANumber? && x.unscaled * Pow10(m.y.scale) < m.y.unscaled * Pow10(x.scale)
  }

  /** The value is what the literal means. */
  predicate Same(have: Value, m: Meant) {
    match have
    case BoolV(b) => m == ATruth(b)
    case IntV(n) => m == AnInteger(n)
    case LongV(n) => m == AnInteger(n)
    case FloatV(x) => m.ANumber? && x.unscaled * Pow10(m.y.scale) == m.y.unscaled * Pow10(x.scale)
    case DoubleV(x) => m.ANumber? && x.unscaled * Pow10(m.y.scale) == m.y.unscaled * Pow10(x.scale)
    case StrV(s) => m == AText(s)
    case DecV(x) => m.ANumber? && x.unscaled * Pow10(m.y.scale) == m.y.unscaled * Pow10(x.scale)
  }

  /** What the six comparison words say. */
  predicate Says(word: string, less: bool, same: bool) {
    || (word == "eq" && same)
    || (word == "ne" && !same)
    || (word == "lt" && less)
    || (word == "lt-eq" && (less || same))
    || (word == "gt" && !less && !same)
    || (word == "gt-eq" && !less)
  }

  // ----- strings

  lemma {:induction false} StringOrder(a: string, b: string)
    ensures StrLe(a, b) && a != b <==> Before(a, b)
  {
    if a == [] {
      assert b != [] ==> a[..0] == b[..0];
    } else if b != [] {
      StringOrder(a[1..], b[1..]);
      if StrLe(a, b) && a != b {
        if a[0] < b[0] {
          assert a[..0] == b[..0];
        } else {
          assert a == [a[0]] + a[1..] && b == [b[0]] + b[1..];
          var k :| 0 <= k <= |a[1..]| && k < |b[1..]| && a[1..][..k] == b[1..][..k] && (k == |a[1..]| || a[1..][k] < b[1..][k]);
          FrontGrows(a, b, k);
        }
      }
      if Before(a, b) {
        var k :| 0 <= k <= |a| && k < |b| && a[..k] == b[..k] && (k == |a| || a[k] < b[k]);
        if k > 0 {
          FrontShrinks(a, b, k);
        }
      }
    }
  }

  lemma FrontGrows(a: string, b: string, k: nat)
    requires a != [] && b != [] && a[0] == b[0] && k <= |a[1..]| && k < |b[1..]| && a[1..][..k] == b[1..][..k]
    requires k == |a[1..]| || a[1..][k] < b[1..][k]
    ensures Before(a, b)
  {
    assert a[..k + 1] == [a[0]] + a[1..][..k] && b[..k + 1] == [b[0]] + b[1..][..k];
    assert k + 1 == |a| || a[k + 1] < b[k + 1];
  }

  lemma FrontShrinks(a: string, b: string, k: nat)
    requires 0 < k <= |a| && k < |b| && a[..k] == b[..k] && (k == |a| || a[k] < b[k])
    ensures a[0] == b[0] && Before(a[1..], b[1..])
  {
    assert a[0] == a[..k][0] && b[0] == b[..k][0];
    assert a[1..][..k - 1] == a[..k][1..] && b[1..][..k - 1] == b[..k][1..];
    assert k - 1 == |a[1..]| || a[1..][k - 1] < b[1..][k - 1];
  }

  // ----- numbers

  /** Dropping trailing zeros keeps the value. */
  lemma {:induction false} NormalizeKeepsValue(y: Numeral)
    ensures Normalize(y).unscaled * Pow10(y.scale) == y.unscaled * Pow10(Normalize(y).scale)
    decreases y.scale
  {
    if y.scale > 0 && y.unscaled % 10 == 0 {
      var z := Numeral(y.unscaled / 10, y.scale - 1);
      NormalizeKeepsValue(z);
      var x := Normalize(z);
      assert Pow10(y.scale) == 10 * Pow10(z.scale) && y.unscaled == 10 * z.unscaled;
      TenTimes(x.unscaled, Pow10(z.scale), z.unscaled, Pow10(x.scale));
    }
  }

  lemma TenTimes(a: int, p: int, b: int, q: int)
    requires a * p == b * q
    ensures a * (10 * p) == (10 * b) * q
  {
    assert a * (10 * p) == 10 * (a * p) && (10 * b) * q == 10 * (b * q);
  }

  lemma NormalizedCompares(y: Numeral, x: Numeral)
    ensures CompareNumeral(Normalize(y), x) == CompareNumeral(y, x)
  {
    NormalizeKeepsValue(y);
    OrderTellsNothing(DecV(Normalize(y)), DecV(y), DecV(x));
  }

  // ----- what a literal is read as

  lemma LiteralRead(ty: PType, have: Value, m: Meant)
    requires Comparable(ty, have, m)
    ensures ParseValue(ty, Written(m)).Some?
    ensures var want := ParseValue(ty, Written(m)).value;
            && (Compare(want, have) > 0 <==> Less(have, m))
            && (Compare(want, have) == 0 <==> Same(have, m))
            && HasType(ty, want)
  {
    hide ParseNumeral, ParseInt, Pow10, PlainText, Itoa, Normalize;
    match m {
      case AnInteger(n) => ItoaRoundTrip(n);
      case ANumber(y) =>
        PlainTextRoundTrip(y);
        match have {
          case FloatV(x) => NormalizedCompares(y, x);
          case DoubleV(x) => NormalizedCompares(y, x);
          case _ =>
        }
      case AText(t) => TextCompares(t, have.s);
      case ATruth(b) =>
    }
  }

  lemma TextCompares(want: string, have: string)
    ensures Compare(StrV(want), StrV(have)) > 0 <==> Before(have, want)
    ensures Compare(StrV(want), StrV(have)) == 0 <==> want == have
  {
    StringOrder(have, want);
    StringOrder(want, have);
    StrLeTotal(want, have);
  }

  // ----- comparisons

  /** A scalar that is not marked null. */
  predicate IsWritten(tv: TypedValue, m: Meant) {
    tv.Scalar? && tv.tag != "null" && tv.text == Written(m)
  }

  /** The comparison of a column with a literal its type can read. */
  predicate IsComparisonWith(p: Pred, s: Schema, m: Meant) {
    && p.kind in {"eq", "ne", "lt", "lt-eq", "gt", "gt-eq"}
    && p.value.Some? && IsWritten(p.value.value, m) && TypeOf(s, p.term).Some?
  }

  /** A comparison holds of a stored value exactly when its word says so of their order, and never of a null. */
  lemma ComparisonMeans(p: Pred, s: Schema, m: Meant, have: Value, r: Record)
    requires IsComparisonWith(p, s, m) && Comparable(TypeOf(s, p.term).value, have, m)
    requires p.term in r ==> r[p.term] == have
    ensures MatcherOf(p, s).Ok?
    ensures Matches(MatcherOf(p, s).value, r) <==> p.term in r && Says(p.kind, Less(have, m), Same(have, m))
  {
    hide TypeOf, ParseValue, Compare, Less, Same, Written;
    LiteralRead(TypeOf(s, p.term).value, have, m);
    hide Comparable;
    ComparisonCompiled(p, s, m);
    hide MatcherOf, IsComparisonWith;
    WordSays(p.kind, Compare(ParseValue(TypeOf(s, p.term).value, Written(m)).value, have), Less(have, m), Same(have, m));
  }

  lemma ComparisonCompiled(p: Pred, s: Schema, m: Meant)
    requires IsComparisonWith(p, s, m) && ParseValue(TypeOf(s, p.term).value, Written(m)).Some?
    ensures p.kind in {"eq", "ne", "lt", "lt-eq", "gt", "gt-eq"} && TypeOf(s, p.term).Some?
    ensures MatcherOf(p, s) ==
            Ok(MCmp(CmpOpOf(p.kind), p.term, ParseValue(TypeOf(s, p.term).value, Written(m)).value))
  {
    hide TypeOf, ParseValue, Written;
  }

  lemma WordSays(kind: string, cmp: int, less: bool, same: bool)
    requires kind in {"eq", "ne", "lt", "lt-eq", "gt", "gt-eq"} && (cmp > 0 <==> less) && (cmp == 0 <==> same)
    ensures JavaCompare(CmpOpOf(kind), cmp) <==> Says(kind, less, same)
  {
  }

  /** An integer literal is refused exactly when the column's width cannot hold it. */
  lemma IntegersInRange(p: Pred, s: Schema, n: int)
    requires IsComparisonWith(p, s, AnInteger(n)) && TypeOf(s, p.term).value in {TInt, TLong}
    ensures MatcherOf(p, s).Ok? <==>
            if TypeOf(s, p.term) == Some(TInt) then -2147483648 <= n <= 2147483647
            else -9223372036854775808 <= n <= 9223372036854775807
    ensures MatcherOf(p, s).Err? ==> MatcherOf(p, s) == Err(BadScalar(Itoa(n)))
  {
    ItoaRoundTrip(n);
    hide TypeOf, ParseInt, Itoa;
  }

  // ----- set tests

  /** The literals a list holds, in order. */
  predicate IsListOf(values: seq<TypedValue>, ms: seq<Meant>) {
    |values| == |ms| && forall i :: 0 <= i < |ms| ==> IsWritten(values[i], ms[i])
  }

  /** Java's equals: the same value, for decimals under the same scale too. */
  predicate Identical(have: Value, m: Meant) {
    if have.DecV? then m == ANumber(have.x) else Same(have, m)
  }

  lemma LiteralIdentical(ty: PType, have: Value, m: Meant)
    requires Comparable(ty, have, m) && HasType(ty, have)
    ensures ParseValue(ty, Written(m)).Some?
    ensures ParseValue(ty, Written(m)).value == have <==> Identical(have, m)
  {
    LiteralRead(ty, have, m);
    var want := ParseValue(ty, Written(m)).value;
    match m {
      case ANumber(y) =>
        PlainTextRoundTrip(y);
        hide ParseNumeral, Pow10, PlainText, Normalize, Normal;
        match have {
          case FloatV(x) => if Same(have, m) { NormalUnique(want.x, x); }
          case DoubleV(x) => if Same(have, m) { NormalUnique(want.x, x); }
          case _ =>
        }
      case _ =>
    }
  }

  lemma {:induction false} ListRead(s: Schema, term: string, values: seq<TypedValue>, ms: seq<Meant>, have: Value)
    requires TypeOf(s, term).Some? && IsListOf(values, ms) && HasType(TypeOf(s, term).value, have)
    requires forall i :: 0 <= i < |ms| ==> Comparable(TypeOf(s, term).value, have, ms[i])
    ensures JavaTerms(s, term, values).Ok?
    ensures forall i :: 0 <= i < |ms| ==> (JavaTerms(s, term, values).value[i] == have <==> Identical(have, ms[i]))
  {
    hide TypeOf, ParseValue, HasType, Comparable, Identical, Written;
    if values != [] {
      LiteralIdentical(TypeOf(s, term).value, have, ms[0]);
      assert forall i :: 0 <= i < |ms[1..]| ==> ms[1..][i] == ms[i + 1] && values[1..][i] == values[i + 1];
      ListRead(s, term, values[1..], ms[1..], have);
      forall i | 0 < i < |ms| ensures JavaTerms(s, term, values).value[i] == have <==> Identical(have, ms[i]) {
        assert JavaTerms(s, term, values).value[i] == JavaTerms(s, term, values[1..]).value[i - 1];
        assert ms[i] == ms[1..][i - 1];
      }
    }
  }

  /** A list holds of a value that is one of its literals; its negation holds of every other, nulls included. */
  lemma SetTestMeans(p: Pred, s: Schema, ms: seq<Meant>, have: Value, r: Record)
    requires p.kind in {"in", "not-in"} && TypeOf(s, p.term).Some? && IsListOf(p.values, ms)
    requires HasType(TypeOf(s, p.term).value, have)
    requires forall i :: 0 <= i < |ms| ==> Comparable(TypeOf(s, p.term).value, have, ms[i])
    requires p.term in r ==> r[p.term] == have
    ensures MatcherOf(p, s).Ok?
    ensures Matches(MatcherOf(p, s).value, r) <==>
            ((p.kind == "in") <==> p.term in r && exists i :: 0 <= i < |ms| && Identical(have, ms[i]))
  {
    hide TypeOf, ParseValue, HasType, Comparable, Identical, Written;
    ListRead(s, p.term, p.values, ms, have);
  }

  // ----- the other words

  /** Constants, null tests and the connectives say what they say. */
  lemma WordsMean(p: Pred, s: Schema, r: Record)
    ensures p.kind == "true" ==> MatcherOf(p, s).Ok? && Matches(MatcherOf(p, s).value, r)
    ensures p.kind == "false" ==> MatcherOf(p, s).Ok? && !Matches(MatcherOf(p, s).value, r)
    ensures p.kind == "is-null" ==> MatcherOf(p, s).Ok? && (Matches(MatcherOf(p, s).value, r) <==> p.term !in r)
    ensures p.kind == "not-null" ==> MatcherOf(p, s).Ok? && (Matches(MatcherOf(p, s).value, r) <==> p.term in r)
    ensures p.kind == "and" && (forall i :: 0 <= i < |p.args| ==> MatcherOf(p.args[i], s).Ok?) ==>
              MatcherOf(p, s).Ok? &&
              (Matches(MatcherOf(p, s).value, r) <==>
                 forall i :: 0 <= i < |p.args| ==> Matches(MatcherOf(p.args[i], s).value, r))
    ensures p.kind == "or" && (forall i :: 0 <= i < |p.args| ==> MatcherOf(p.args[i], s).Ok?) ==>
              MatcherOf(p, s).Ok? &&
              (Matches(MatcherOf(p, s).value, r) <==>
                 exists i :: 0 <= i < |p.args| && Matches(MatcherOf(p.args[i], s).value, r))
    ensures p.kind == "not" && p.arg.Some? && MatcherOf(p.arg.value, s).Ok? ==>
              MatcherOf(p, s).Ok? && (Matches(MatcherOf(p, s).value, r) <==> !Matches(MatcherOf(p.arg.value, s).value, r))
  {
    if p.kind == "and" || p.kind == "or" {
      MatchersOfEach(p.args, s);
    }
  }

  // ----- the lowered expression

  /** What each malformed predicate is refused with. */
  lemma PredicateRefused(p: Pred, s: Schema)
    requires p.kind in {"eq", "ne", "lt", "lt-eq", "gt", "gt-eq"}
    ensures p.value.None? ==> MatcherOf(p, s) == Err(MissingValue(p.term))
    ensures p.value.Some? && p.value.value.Scalar? && p.value.value.tag == "null" ==> MatcherOf(p, s) == Err(NullLiteral)
    ensures p.value.Some? && !(p.value.value.Scalar? && p.value.value.tag == "null") ==>
              && (TypeOf(s, p.term).None? ==> MatcherOf(p, s) == Err(UnknownTerm(p.term)))
              && (TypeOf(s, p.term).Some? && p.value.value.Nested? ==> MatcherOf(p, s) == Err(NestedScalar))
  {
  }

  lemma UnknownWordRefused(p: Pred, s: Schema)
    requires p.kind !in {"true", "false", "is-null", "not-null", "eq", "ne", "lt", "lt-eq", "gt", "gt-eq",
                         "in", "not-in", "and", "or"}
    requires p.kind == "not" ==> p.arg.None?
    ensures MatcherOf(p, s) == Err(BadPredicate(p.kind))
  {
  }

  /** The lowered comparison says the same of every record that holds the column. */
  lemma LoweredComparisonMeans(p: Pred, s: Schema, m: Meant, r: Record, cast: Caster, nulls: NullPolicy)
    requires IsComparisonWith(p, s, m) && p.term in r && Comparable(TypeOf(s, p.term).value, r[p.term], m)
    requires CastsAlike(p, s, cast) && Written(m) != "null"
    ensures BuildExpr(p, s, cast).Ok?
    ensures Eval(BuildExpr(p, s, cast).value, r, nulls) <==> Says(p.kind, Less(r[p.term], m), Same(r[p.term], m))
  {
    ComparisonMeans(p, s, m, r[p.term], r);
    AcceptanceExact(p, s, cast);
    hide BuildExpr, CastsAlike, Less, Same, Comparable, Written, Says;
    LoweringPreservesMeaning(p, s, cast, r, nulls);
  }
}
