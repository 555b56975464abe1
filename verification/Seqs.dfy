/**
 Sequence operations shared by the table, the generator and the judges. A scan promises no row
 order, so most results compare sequences as bags: the lemmas here say which operations respect
 that.
 */
module Seqs {
  function Map<A, B>(f: A -> B, s: seq<A>): (r: seq<B>)
    ensures |r| == |s|
    ensures forall i :: 0 <= i < |s| ==> r[i] == f(s[i])
  {
    if s == [] then [] else [f(s[0])] + Map(f, s[1..])
  }

  function Filter<A>(p: A -> bool, s: seq<A>): (r: seq<A>)
    ensures |r| <= |s|
  {
    if s == [] then []
    else if p(s[0]) then [s[0]] + Filter(p, s[1..])
    else Filter(p, s[1..])
  }

  lemma FilterCons<A>(p: A -> bool, x: A, s: seq<A>)
    ensures Filter(p, [x] + s) == if p(x) then [x] + Filter(p, s) else Filter(p, s)
  {
    assert ([x] + s)[1..] == s;
  }

  lemma {:induction false} FilterIn<A>(p: A -> bool, s: seq<A>, x: A)
    ensures x in Filter(p, s) <==> x in s && p(x)
  {
    if s != [] {
      FilterIn(p, s[1..], x);
    }
  }

  function FlatMap<A, B>(f: A -> seq<B>, s: seq<A>): seq<B> {
    if s == [] then [] else f(s[0]) + FlatMap(f, s[1..])
  }

  function RemoveAt<A>(s: seq<A>, i: nat): (r: seq<A>)
    requires i < |s|
    ensures |r| == |s| - 1
    ensures multiset(s) == multiset(r) + multiset{s[i]}
  {
    assert s == s[..i] + [s[i]] + s[i + 1..];
    s[..i] + s[i + 1..]
  }

  /** Exactly the element at `i` is gone; those behind it move up. */
  lemma RemoveAtPlaces<A>(s: seq<A>, i: nat, j: nat)
    requires i < |s| && j < |RemoveAt(s, i)|
    ensures RemoveAt(s, i)[j] == if j < i then s[j] else s[j + 1]
  {
  }

  predicate SameBag<A(==)>(a: seq<A>, b: seq<A>) {
    multiset(a) == multiset(b)
  }

  predicate Distinct<A(==)>(s: seq<A>) {
    forall i, j :: 0 <= i < j < |s| ==> s[i] != s[j]
  }

  lemma {:induction false} MapAppend<A, B>(f: A -> B, s: seq<A>, t: seq<A>)
    ensures Map(f, s + t) == Map(f, s) + Map(f, t)
  {
    if s == [] {
      assert s + t == t;
    } else {
      assert (s + t)[1..] == s[1..] + t;
      MapAppend(f, s[1..], t);
    }
  }

  lemma MapSnoc<A, B>(f: A -> B, front: seq<A>, last: A)
    ensures Map(f, front + [last]) == Map(f, front) + [f(last)]
  {
    MapAppend(f, front, [last]);
  }

  lemma {:induction false} FilterAppend<A>(p: A -> bool, s: seq<A>, t: seq<A>)
    ensures Filter(p, s + t) == Filter(p, s) + Filter(p, t)
  {
    if s == [] {
      assert s + t == t;
    } else {
      assert (s + t)[1..] == s[1..] + t;
      FilterAppend(p, s[1..], t);
      assert (s + t)[0] == s[0];
      if p(s[0]) {
        assert Filter(p, s + t) == [s[0]] + (Filter(p, s[1..]) + Filter(p, t));
      }
    }
  }

  lemma {:induction false} FlatMapAppend<A, B>(f: A -> seq<B>, s: seq<A>, t: seq<A>)
    ensures FlatMap(f, s + t) == FlatMap(f, s) + FlatMap(f, t)
  {
    if s == [] {
      assert s + t == t;
    } else {
      assert (s + t)[1..] == s[1..] + t;
      FlatMapAppend(f, s[1..], t);
    }
  }

  /** An element of a bag can be moved to the front of any sequence that lists the bag. */
  lemma IndexOf<A>(s: seq<A>, t: seq<A>) returns (i: nat)
    requires s != [] && SameBag(s, t)
    ensures i < |t| && t[i] == s[0]
    ensures SameBag(s[1..], RemoveAt(t, i))
  {
    assert s[0] in multiset(s);
    assert s[0] in t;
    i :| 0 <= i < |t| && t[i] == s[0];
    assert s == [s[0]] + s[1..];
    assert multiset(t) == multiset(RemoveAt(t, i)) + multiset{t[i]};
    assert multiset(s) == multiset{s[0]} + multiset(s[1..]);
    assert multiset(s[1..]) == multiset(s) - multiset{s[0]};
  }

  /** The converse: putting the element back gives the same bag. */
  lemma PutBack<A>(s: seq<A>, t: seq<A>, i: nat)
    requires s != [] && i < |t| && t[i] == s[0]
    requires SameBag(s[1..], RemoveAt(t, i))
    ensures SameBag(s, t)
  {
    assert s == [s[0]] + s[1..];
    assert multiset(s) == multiset{s[0]} + multiset(s[1..]);
    assert multiset(t) == multiset(RemoveAt(t, i)) + multiset{t[i]};
  }

  /** Reading the files of a bag in any order yields the same bag of rows. */
  lemma {:induction false} FlatMapBag<A, B>(f: A -> seq<B>, s: seq<A>, t: seq<A>)
    requires SameBag(s, t)
    ensures SameBag(FlatMap(f, s), FlatMap(f, t))
  {
    if s == [] {
      assert |multiset(t)| == 0;
      assert t == [];
    } else {
      var i := IndexOf(s, t);
      FlatMapBag(f, s[1..], RemoveAt(t, i));
      FlatMapAppend(f, t[..i], t[i..]);
      FlatMapAppend(f, t[..i], t[i + 1..]);
      assert t == t[..i] + t[i..];
    }
  }

  lemma MapAppendAt<A, B>(f: A -> B, t: seq<A>, i: nat)
    requires i < |t|
    ensures multiset(Map(f, t)) == multiset{f(t[i])} + multiset(Map(f, RemoveAt(t, i)))
  {
    MapAppend(f, t[..i], t[i..]);
    MapAppend(f, t[..i], t[i + 1..]);
    assert t == t[..i] + t[i..];
    assert t[i..][1..] == t[i + 1..];
    assert Map(f, t[i..]) == [f(t[i])] + Map(f, t[i + 1..]);
  }

  lemma {:induction false} FilterSplit<A>(p: A -> bool, t: seq<A>, i: nat)
    requires i <= |t|
    ensures Filter(p, t) == Filter(p, t[..i]) + Filter(p, t[i..])
  {
    hide Filter;
    assert t == t[..i] + t[i..];
    FilterAppend(p, t[..i], t[i..]);
  }

  lemma FilterRemoveAt<A>(p: A -> bool, t: seq<A>, i: nat)
    requires i < |t|
    ensures multiset(Filter(p, t)) ==
              multiset(Filter(p, RemoveAt(t, i))) + if p(t[i]) then multiset{t[i]} else multiset{}
  {
    var rest := t[i..];
    FilterSplit(p, t, i);
    FilterAppend(p, t[..i], t[i + 1..]);
    assert rest[1..] == t[i + 1..];
  }

  lemma {:induction false} MapBag<A, B>(f: A -> B, s: seq<A>, t: seq<A>)
    requires SameBag(s, t)
    ensures SameBag(Map(f, s), Map(f, t))
  {
    if s == [] {
      assert |multiset(t)| == 0;
      assert t == [];
    } else {
      var i := IndexOf(s, t);
      MapBag(f, s[1..], RemoveAt(t, i));
      MapAppendAt(f, t, i);
    }
  }

  lemma MapTail<A, B>(f: A -> B, a: seq<A>)
    requires a != []
    ensures Map(f, a)[0] == f(a[0]) && Map(f, a)[1..] == Map(f, a[1..])
  {
  }

  lemma {:induction false} MapWithout<A, B>(f: A -> B, b: seq<A>, i: nat)
    requires i < |b|
    ensures RemoveAt(Map(f, b), i) == Map(f, RemoveAt(b, i))
  {
    hide Map;
    MapAppend(f, b[..i], b[i + 1..]);
    assert Map(f, b)[..i] == Map(f, b[..i]);
    assert Map(f, b)[i + 1..] == Map(f, b[i + 1..]);
  }

  /** A map that tells the elements apart tells the bags apart. */
  lemma {:induction false} BagsApart<A, B>(f: A -> B, a: seq<A>, b: seq<A>)
    requires forall x, y :: x in a && y in b && f(x) == f(y) ==> x == y
    requires SameBag(Map(f, a), Map(f, b))
    ensures SameBag(a, b)
  {
    if a == [] {
      SameBagMembers(Map(f, a), Map(f, b));
    } else {
      var i := MatchApart(f, a, b);
      hide Map, SameBag;
      RemoveAtIn(b, i);
      BagsApart(f, a[1..], RemoveAt(b, i));
      PutBack(a, b, i);
    }
  }

  /** The first element of `a` stands in `b`, and the rest still has equal images. */
  lemma {:induction false} MatchApart<A, B>(f: A -> B, a: seq<A>, b: seq<A>) returns (i: nat)
    requires forall x, y :: x in a && y in b && f(x) == f(y) ==> x == y
    requires a != [] && SameBag(Map(f, a), Map(f, b))
    ensures i < |b| && b[i] == a[0]
    ensures SameBag(Map(f, a[1..]), Map(f, RemoveAt(b, i)))
  {
    MapTail(f, a);
    i := IndexOf(Map(f, a), Map(f, b));
    MapWithout(f, b, i);
    hide SameBag, RemoveAt;
    assert a[0] in a && b[i] in b && f(b[i]) == f(a[0]);
  }

  lemma {:induction false} RemoveAtIn<A>(s: seq<A>, i: nat)
    requires i < |s|
    ensures forall x :: x in RemoveAt(s, i) ==> x in s
  {
    forall x | x in RemoveAt(s, i) ensures x in s {
      assert x in multiset(RemoveAt(s, i));
      assert x in multiset(s);
    }
  }

  lemma {:induction false} FilterBag<A>(p: A -> bool, s: seq<A>, t: seq<A>)
    requires SameBag(s, t)
    ensures SameBag(Filter(p, s), Filter(p, t))
  {
    if s == [] {
      assert |multiset(t)| == 0;
      assert t == [];
    } else {
      var i := IndexOf(s, t);
      FilterBag(p, s[1..], RemoveAt(t, i));
      FilterRemoveAt(p, t, i);
    }
  }

  /** Filtering after a map is mapping after a filter, when the two tests agree through the map. */
  lemma {:induction false} FilterMap<A, B>(p: B -> bool, q: A -> bool, f: A -> B, s: seq<A>)
    requires forall i :: 0 <= i < |s| ==> p(f(s[i])) == q(s[i])
    ensures Filter(p, Map(f, s)) == Map(f, Filter(q, s))
  {
    if s != [] {
      assert forall i :: 0 <= i < |s[1..]| ==> s[1..][i] == s[i + 1];
      FilterMap(p, q, f, s[1..]);
      var rest := Filter(q, s[1..]);
      assert Map(f, s)[1..] == Map(f, s[1..]);
      if q(s[0]) {
        assert Filter(q, s) == [s[0]] + rest;
        assert ([s[0]] + rest)[1..] == rest;
      }
    }
  }

  lemma {:induction false} MapMap<A, B, C>(f: A -> B, g: B -> C, h: A -> C, s: seq<A>)
    requires forall i :: 0 <= i < |s| ==> g(f(s[i])) == h(s[i])
    ensures Map(g, Map(f, s)) == Map(h, s)
  {
    if s != [] {
      assert forall i :: 0 <= i < |s[1..]| ==> s[1..][i] == s[i + 1];
      MapMap(f, g, h, s[1..]);
      assert Map(f, s)[1..] == Map(f, s[1..]);
    }
  }

  /** A filter that keeps everything, and one that keeps nothing. */
  lemma {:induction false} FilterAll<A>(p: A -> bool, s: seq<A>)
    ensures (forall x :: x in s ==> p(x)) ==> Filter(p, s) == s
    ensures (forall x :: x in s ==> !p(x)) ==> Filter(p, s) == []
  {
    if s != [] {
      assert forall x :: x in s[1..] ==> x in s;
      FilterAll(p, s[1..]);
    }
  }

  lemma {:induction false} FilterAgree<A>(p: A -> bool, q: A -> bool, s: seq<A>)
    requires forall x :: x in s ==> p(x) == q(x)
    ensures Filter(p, s) == Filter(q, s)
  {
    if s != [] {
      assert s[0] in s && forall x :: x in s[1..] ==> x in s;
      FilterAgree(p, q, s[1..]);
    }
  }

  lemma {:induction false} FilterIdempotent<A>(p: A -> bool, s: seq<A>)
    ensures Filter(p, Filter(p, s)) == Filter(p, s)
  {
    forall x | x in Filter(p, s) ensures p(x) {
      FilterIn(p, s, x);
    }
    FilterAll(p, Filter(p, s));
  }

  /** The next element of an iteration that promises no order. */
  method AnyOf<A(==)>(s: set<A>) returns (x: A)
    requires s != {}
    ensures x in s
  {
    x :| x in s;
  }

  lemma SameBagMembers<A>(s: seq<A>, t: seq<A>)
    requires SameBag(s, t)
    ensures |s| == |t|
    ensures forall x :: x in s <==> x in t
  {
    assert |multiset(s)| == |s| && |multiset(t)| == |t|;
    forall x ensures x in s <==> x in t {
      assert x in s <==> x in multiset(s);
      assert x in t <==> x in multiset(t);
    }
  }

  /** Two lists of one value, of one length, are equal. */
  lemma SameValueBag<A>(x: A, a: seq<A>, b: seq<A>)
    requires SameBag(a, b)
    requires (forall y :: y in a ==> y == x) && forall y :: y in b ==> y == x
    ensures a == b
  {
    SameBagMembers(a, b);
    forall i | 0 <= i < |a| ensures a[i] == b[i] {
      assert a[i] in a && b[i] in b;
    }
  }

  lemma MoveToFront<A>(s: seq<A>, i: nat)
    requires i < |s|
    ensures SameBag(s, [s[i]] + RemoveAt(s, i))
  {
    assert multiset([s[i]] + RemoveAt(s, i)) == multiset{s[i]} + multiset(RemoveAt(s, i));
  }

  /** A sequence without repeats counts each element once. */
  lemma {:induction false} DistinctCounts<A>(s: seq<A>)
    ensures Distinct(s) <==> forall x :: multiset(s)[x] <= 1
  {
    if s != [] {
      assert s == [s[0]] + s[1..];
      DistinctCounts(s[1..]);
      if Distinct(s) {
        assert Distinct(s[1..]);
        forall x ensures multiset(s)[x] <= 1 {
          if x == s[0] {
            assert x !in s[1..];
          }
        }
      }
      if forall x :: multiset(s)[x] <= 1 {
        forall x ensures multiset(s[1..])[x] <= 1 {
          assert multiset(s[1..])[x] <= multiset(s)[x];
        }
        assert multiset(s)[s[0]] <= 1;
        assert s[0] !in s[1..];
        forall i, j | 0 <= i < j < |s| ensures s[i] != s[j] {
          assert s[j] == s[1..][j - 1];
          if i > 0 {
            assert s[i] == s[1..][i - 1];
          }
        }
      }
    }
  }
}
