/**
 Decimal printing and parsing, and the order in which the judges sort. Row keys, bind names and
 ids travel as decimal text and are compared as text, so printing has to be injective.
 */
module Text {
  import opened Wrappers
  import opened Seqs

  predicate IsDigit(c: char) {
    '0' <= c <= '9'
  }

  function Digit(d: nat): char
    requires d < 10
  {
    '0' + d as char
  }

  function DigitValue(c: char): nat
    requires IsDigit(c)
  {
    (c - '0') as int
  }

  function NatText(n: nat): (s: string)
    ensures s != [] && forall c :: c in s ==> IsDigit(c)
  {
    if n < 10 then [Digit(n)] else NatText(n / 10) + [Digit(n % 10)]
  }

  /** Go's strconv.Itoa. */
  function Itoa(n: int): string {
    if n < 0 then "-" + NatText(-n) else NatText(n)
  }

  predicate AllDigits(s: string) {
    forall i :: 0 <= i < |s| ==> IsDigit(s[i])
  }

  function DigitsValue(s: string): nat
    requires AllDigits(s)
  {
    if s == [] then 0 else DigitsValue(s[..|s| - 1]) * 10 + DigitValue(s[|s| - 1])
  }

  /** Java's Integer.parseInt and Long.parseLong before their range checks. */
  function ParseInt(s: string): Option<int> {
    var signed := s != [] && (s[0] == '-' || s[0] == '+');
    var digits := if signed then s[1..] else s;
    if digits == [] || !AllDigits(digits) then None
    else
      var value: int := DigitsValue(digits);
      Some(if signed && s[0] == '-' then -value else value)
  }

  lemma {:induction false} NatTextValue(n: nat)
    ensures AllDigits(NatText(n)) && DigitsValue(NatText(n)) == n
  {
    if n < 10 {
      assert NatText(n)[..0] == [];
    } else {
      NatTextValue(n / 10);
      assert NatText(n)[..|NatText(n)| - 1] == NatText(n / 10);
    }
  }

  /** Printing then parsing gives the number back; hence printing is injective. */
  lemma ItoaRoundTrip(n: int)
    ensures ParseInt(Itoa(n)) == Some(n)
  {
    NatTextValue(if n < 0 then -n else n);
    var s := Itoa(n);
    assert IsDigit(NatText(if n < 0 then -n else n)[0]);
    if n < 0 {
      assert s[1..] == NatText(-n);
    }
  }

  lemma ItoaInjective(m: int, n: int)
    ensures Itoa(m) == Itoa(n) <==> m == n
  {
    ItoaRoundTrip(m);
    ItoaRoundTrip(n);
  }

  // ----- string order and sorting

  predicate StrLe(a: string, b: string) {
    a == [] || (b != [] && (a[0] < b[0] || (a[0] == b[0] && StrLe(a[1..], b[1..]))))
  }

  lemma {:induction false} StrLeTotal(a: string, b: string)
    ensures StrLe(a, b) || StrLe(b, a)
    ensures StrLe(a, b) && StrLe(b, a) ==> a == b
    ensures StrLe(a, a)
  {
    if a != [] {
      StrLeTotal(a[1..], if b == [] then [] else b[1..]);
      assert a == [a[0]] + a[1..];
      if b != [] {
        assert b == [b[0]] + b[1..];
      }
    }
  }

  lemma {:induction false} StrLeTransitive(a: string, b: string, c: string)
    requires StrLe(a, b) && StrLe(b, c)
    ensures StrLe(a, c)
  {
    if a != [] && a[0] == b[0] == c[0] {
      StrLeTransitive(a[1..], b[1..], c[1..]);
    }
  }

  ghost predicate SortedBy<T(!new)>(key: T -> string, s: seq<T>) {
    forall i, j :: 0 <= i < j < |s| ==> StrLe(key(s[i]), key(s[j]))
  }

  function InsertBy<T>(key: T -> string, x: T, s: seq<T>): seq<T> {
    if s == [] || StrLe(key(x), key(s[0])) then [x] + s
    else [s[0]] + InsertBy(key, x, s[1..])
  }

  /** Go's sort.SliceStable with `key(i) < key(j)` as its less function. */
  function StableSort<T>(key: T -> string, s: seq<T>): seq<T> {
    if s == [] then [] else InsertBy(key, s[0], StableSort(key, s[1..]))
  }

  function WithKey<T>(key: T -> string, k: string): T -> bool {
    x => key(x) == k
  }

  lemma {:induction false} InsertByBag<T>(key: T -> string, x: T, s: seq<T>)
    ensures multiset(InsertBy(key, x, s)) == multiset{x} + multiset(s)
  {
    if s != [] && !StrLe(key(x), key(s[0])) {
      InsertByBag(key, x, s[1..]);
      assert s == [s[0]] + s[1..];
    }
  }

  lemma {:induction false} InsertBySorted<T(!new)>(key: T -> string, x: T, s: seq<T>)
    requires SortedBy(key, s)
    ensures SortedBy(key, InsertBy(key, x, s))
  {
    hide StrLe;
    var r := InsertBy(key, x, s);
    if s == [] || StrLe(key(x), key(s[0])) {
      forall j | 0 < j < |r| ensures StrLe(key(r[0]), key(r[j])) {
        if j > 1 {
          StrLeTransitive(key(x), key(s[0]), key(s[j - 1]));
        }
      }
    } else {
      StrLeTotal(key(x), key(s[0]));
      InsertBySorted(key, x, s[1..]);
      var tail := InsertBy(key, x, s[1..]);
      InsertByBag(key, x, s[1..]);
      forall j | 0 < j < |r| ensures StrLe(key(r[0]), key(r[j])) {
        assert r[j] == tail[j - 1];
        assert tail[j - 1] in multiset(tail);
        assert tail[j - 1] == x || tail[j - 1] in s[1..];
      }
      forall i, j | 0 <= i < j < |r| ensures StrLe(key(r[i]), key(r[j])) {
        if i > 0 {
          assert r[i] == tail[i - 1] && r[j] == tail[j - 1];
        }
      }
    }
  }

  /** Inserting keeps, under every key, the order in which rows of that key arrived. */
  lemma {:induction false} InsertByStable<T>(key: T -> string, x: T, s: seq<T>, k: string)
    ensures Filter(WithKey(key, k), InsertBy(key, x, s)) == Filter(WithKey(key, k), [x] + s)
  {
    var p := WithKey(key, k);
    if s != [] && !StrLe(key(x), key(s[0])) {
      StrLeTotal(key(x), key(s[0]));
      InsertByStable(key, x, s[1..], k);
      assert s == [s[0]] + s[1..];
      FilterAppend(p, [s[0]], InsertBy(key, x, s[1..]));
      FilterAppend(p, [x], s[1..]);
      FilterAppend(p, [x], s);
      FilterAppend(p, [s[0]], s[1..]);
    }
  }

  /** The sort is a permutation, is ordered, and keeps rows of one key in their order. */
  lemma {:induction false} StableSortCorrect<T(!new)>(key: T -> string, s: seq<T>)
    ensures SortedBy(key, StableSort(key, s))
    ensures SameBag(StableSort(key, s), s)
    ensures forall k :: Filter(WithKey(key, k), StableSort(key, s)) == Filter(WithKey(key, k), s)
  {
    if s != [] {
      StableSortCorrect(key, s[1..]);
      var t := StableSort(key, s[1..]);
      InsertBySorted(key, s[0], t);
      InsertByBag(key, s[0], t);
      assert s == [s[0]] + s[1..];
      forall k ensures Filter(WithKey(key, k), StableSort(key, s)) == Filter(WithKey(key, k), s) {
        InsertByStable(key, s[0], t, k);
        FilterAppend(WithKey(key, k), [s[0]], t);
        FilterAppend(WithKey(key, k), [s[0]], s[1..]);
      }
    }
  }

  lemma SharedMember<T(!new)>(key: T -> string, a: seq<T>, b: seq<T>, x: T)
    requires forall k :: Filter(WithKey(key, k), a) == Filter(WithKey(key, k), b)
    ensures x in a ==> x in b
  {
    FilterIn(WithKey(key, key(x)), a, x);
    FilterIn(WithKey(key, key(x)), b, x);
  }

  lemma NonEmptyClass<T>(key: T -> string, s: seq<T>)
    requires s != []
    ensures exists k :: Filter(WithKey(key, k), s) != []
  {
    FilterIn(WithKey(key, key(s[0])), s, s[0]);
  }

  /** Ordered sequences with the same rows, in the same order, under each key are equal. */
  lemma {:induction false} SortedClassesUnique<T(!new)>(key: T -> string, a: seq<T>, b: seq<T>)
    requires SortedBy(key, a) && SortedBy(key, b)
    requires forall k :: Filter(WithKey(key, k), a) == Filter(WithKey(key, k), b)
    ensures a == b
  {
    if a == [] {
      if b != [] {
        NonEmptyClass(key, b);
      }
    } else {
      SharedMember(key, a, b, a[0]);
      assert b != [];
      SharedMember(key, b, a, b[0]);
      FirstIsLeast(key, a, b[0]);
      FirstIsLeast(key, b, a[0]);
      StrLeTotal(key(a[0]), key(b[0]));
      var p := WithKey(key, key(a[0]));
      assert Filter(p, a)[0] == a[0] && Filter(p, b)[0] == b[0];
      forall k ensures Filter(WithKey(key, k), a[1..]) == Filter(WithKey(key, k), b[1..]) {
        var q := WithKey(key, k);
        assert Filter(q, a) == (if q(a[0]) then [a[0]] else []) + Filter(q, a[1..]);
        assert Filter(q, b) == (if q(b[0]) then [b[0]] else []) + Filter(q, b[1..]);
        assert Filter(q, a) == Filter(q, b);
        if q(a[0]) {
          assert Filter(q, a[1..]) == Filter(q, a)[1..];
          assert Filter(q, b[1..]) == Filter(q, b)[1..];
        } else {
          assert Filter(q, a[1..]) == Filter(q, a);
          assert Filter(q, b[1..]) == Filter(q, b);
        }
      }
      SortedClassesUnique(key, a[1..], b[1..]);
      assert a == [a[0]] + a[1..] && b == [b[0]] + b[1..];
    }
  }

  lemma FirstIsLeast<T(!new)>(key: T -> string, s: seq<T>, x: T)
    requires SortedBy(key, s) && x in s
    ensures StrLe(key(s[0]), key(x))
  {
    var i :| 0 <= i < |s| && s[i] == x;
    if i == 0 {
      StrLeTotal(key(x), key(x));
    }
  }

  /** Go's sort.Strings. */
  function SortStrings(s: seq<string>): seq<string> {
    StableSort(Self, s)
  }

  function Self(s: string): string {
    s
  }

  /** Sorting is canonical: two lists sort to the same list exactly when they are the same bag. */
  lemma SortStringsCanonical(a: seq<string>, b: seq<string>)
    ensures SortStrings(a) == SortStrings(b) <==> SameBag(a, b)
  {
    StableSortCorrect(Self, a);
    StableSortCorrect(Self, b);
    hide Filter, WithKey, StableSort, SortedBy, Self;
    if SameBag(a, b) {
      forall k ensures Filter(WithKey(Self, k), StableSort(Self, a)) == Filter(WithKey(Self, k), StableSort(Self, b)) {
        StringClassesAgree(a, b, k);
      }
      SortedClassesUnique(Self, StableSort(Self, a), StableSort(Self, b));
    }
  }

  /** A class of strings holds copies of one string, so a bag decides it. */
  lemma {:induction false} StringClassesAgree(a: seq<string>, b: seq<string>, k: string)
    requires SameBag(a, b)
    ensures Filter(WithKey(Self, k), a) == Filter(WithKey(Self, k), b)
  {
    var p := WithKey(Self, k);
    FilterBag(p, a, b);
    StringClass(a, k);
    StringClass(b, k);
    hide Filter, SameBag;
    SameValueBag(k, Filter(p, a), Filter(p, b));
  }

  lemma {:induction false} StringClass(a: seq<string>, k: string)
    ensures forall x :: x in Filter(WithKey(Self, k), a) ==> x == k
  {
    forall x | x in Filter(WithKey(Self, k), a) ensures x == k {
      FilterIn(WithKey(Self, k), a, x);
      WithKeyOf(Self, k, x);
    }
  }

  lemma {:induction false} WithKeyOf<T>(key: T -> string, k: string, x: T)
    ensures WithKey(key, k)(x) <==> key(x) == k
  {
  }
}
