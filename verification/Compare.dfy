/**
 `compare.go`: the golden comparator over parsed JSON. `canon` stands for the JSON encoder, taken to
 be injective on JSON values.
 */
module Compare {
  import opened Text
  import opened Seqs
  import opened Values
  import opened Emit

  datatype Diff = Diff(path: string, got: Json, want: Json)

  ghost predicate Injective(canon: Json -> string) {
    forall x, y :: canon(x) == canon(y) ==> x == y
  }

  /** A missing member reads as null. */
  function Get(m: map<string, Json>, k: string): Json {
    if k in m then m[k] else JNull
  }

  function Arr(v: Json): seq<Json> {
    if v.JArr? then v.items else []
  }

  function BoolOr(v: Json, def: bool): bool {
    if v.JBool? then v.b else def
  }

  /** The sort key of a decoded row: the encoding of its `__rowkey` cell. */
  function KeyOf(canon: Json -> string, row: Json): string {
    if row.JObj? then canon(Get(row.members, "0")) else ""
  }

  function RowKey(canon: Json -> string): Json -> string {
    (row: Json) => KeyOf(canon, row)
  }

  predicate JsonEqual(canon: Json -> string, a: Json, b: Json) {
    canon(a) == canon(b)
  }

  function SortedRows(canon: Json -> string, rows: seq<Json>): seq<Json> {
    StableSort(RowKey(canon), rows)
  }

  // ----- what a clean comparison means

  /** Under every row key the two sides hold the same rows in the same order. */
  ghost predicate RowsAgree(canon: Json -> string, a: seq<Json>, b: seq<Json>) {
    forall k :: Filter(WithKey(RowKey(canon), k), a) == Filter(WithKey(RowKey(canon), k), b)
  }

  ghost predicate ObservationsMatch(canon: Json -> string, a: Json, b: Json) {
    a.JObj? && b.JObj? ==>
      && Get(a.members, "iceberg-schema") == Get(b.members, "iceberg-schema")
      && RowsAgree(canon, Arr(Get(a.members, "decoded-rows")), Arr(Get(b.members, "decoded-rows")))
  }

  ghost predicate AllObservationsMatch(canon: Json -> string, a: seq<Json>, b: seq<Json>) {
    |a| == |b| && forall i :: 0 <= i < |a| ==> ObservationsMatch(canon, a[i], b[i])
  }

  ghost predicate SameOutput(canon: Json -> string, got: map<string, Json>, want: map<string, Json>) {
    && BoolOr(Get(got, "accept"), true) == BoolOr(Get(want, "accept"), true)
    && Arr(Get(got, "snapshots")) == Arr(Get(want, "snapshots"))
    && AllObservationsMatch(canon, Arr(Get(got, "observations")), Arr(Get(want, "observations")))
  }

  /** Sorting by row key and comparing the lists tests exactly the agreement of key classes. */
  lemma SortedRowsExact(canon: Json -> string, a: seq<Json>, b: seq<Json>)
    ensures SortedRows(canon, a) == SortedRows(canon, b) <==> RowsAgree(canon, a, b)
  {
    var key := RowKey(canon);
    StableSortCorrect(key, a);
    StableSortCorrect(key, b);
    if RowsAgree(canon, a, b) {
      forall k ensures Filter(WithKey(key, k), StableSort(key, a)) == Filter(WithKey(key, k), StableSort(key, b)) {
        assert Filter(WithKey(key, k), StableSort(key, a)) == Filter(WithKey(key, k), a);
        assert Filter(WithKey(key, k), StableSort(key, b)) == Filter(WithKey(key, k), b);
      }
      SortedClassesUnique(key, StableSort(key, a), StableSort(key, b));
    }
    if StableSort(key, a) == StableSort(key, b) {
      forall k ensures Filter(WithKey(key, k), a) == Filter(WithKey(key, k), b) {
        assert Filter(WithKey(key, k), StableSort(key, a)) == Filter(WithKey(key, k), a);
        assert Filter(WithKey(key, k), StableSort(key, b)) == Filter(WithKey(key, k), b);
      }
    }
  }

  /** Agreement of key classes always implies equal bags. */
  lemma RowsAgreeBags(canon: Json -> string, a: seq<Json>, b: seq<Json>)
    requires RowsAgree(canon, a, b)
    ensures SameBag(a, b)
  {
    SortedRowsExact(canon, a, b);
    StableSortCorrect(RowKey(canon), a);
    StableSortCorrect(RowKey(canon), b);
  }

  /** Rows of one key are one row. */
  predicate KeyDecides(canon: Json -> string, rows: seq<Json>) {
    forall i, j :: 0 <= i < j < |rows| && RowKey(canon)(rows[i]) == RowKey(canon)(rows[j]) ==> rows[i] == rows[j]
  }

  lemma ClassIsOneRow(canon: Json -> string, rows: seq<Json>, k: string, x: Json, y: Json)
    requires KeyDecides(canon, rows)
    requires x in Filter(WithKey(RowKey(canon), k), rows) && y in Filter(WithKey(RowKey(canon), k), rows)
    ensures x == y
  {
    FilterIn(WithKey(RowKey(canon), k), rows, x);
    FilterIn(WithKey(RowKey(canon), k), rows, y);
    var i :| 0 <= i < |rows| && rows[i] == x;
    var j :| 0 <= j < |rows| && rows[j] == y;
    assert i < j || j < i || x == y;
  }

  lemma DecidedClassesAgree(canon: Json -> string, a: seq<Json>, b: seq<Json>, k: string)
    requires KeyDecides(canon, a) && SameBag(a, b)
    ensures Filter(WithKey(RowKey(canon), k), a) == Filter(WithKey(RowKey(canon), k), b)
  {
    var x, y := Filter(WithKey(RowKey(canon), k), a), Filter(WithKey(RowKey(canon), k), b);
    FilterBag(WithKey(RowKey(canon), k), a, b);
    SameBagMembers(x, y);
    if x != [] {
      forall z | z in x ensures z == x[0] {
        ClassIsOneRow(canon, a, k, z, x[0]);
      }
      SameValueBag(x[0], x, y);
    }
  }

  /** Where a row key decides the row, agreement is equality of bags. */
  lemma RowsAgreeExactly(canon: Json -> string, a: seq<Json>, b: seq<Json>)
    requires KeyDecides(canon, a)
    ensures RowsAgree(canon, a, b) <==> SameBag(a, b)
  {
    if RowsAgree(canon, a, b) {
      RowsAgreeBags(canon, a, b);
    }
    if SameBag(a, b) {
      forall k ensures Filter(WithKey(RowKey(canon), k), a) == Filter(WithKey(RowKey(canon), k), b) {
        DecidedClassesAgree(canon, a, b, k);
      }
    }
  }

  lemma FrontOfClass(canon: Json -> string, rows: seq<Json>, i: nat, k: string)
    requires i < |rows| && RowKey(canon)(rows[i]) == k
    ensures SameBag(rows, [rows[i]] + RemoveAt(rows, i))
    ensures Filter(WithKey(RowKey(canon), k), [rows[i]] + RemoveAt(rows, i)) != []
    ensures Filter(WithKey(RowKey(canon), k), [rows[i]] + RemoveAt(rows, i))[0] == rows[i]
  {
    MoveToFront(rows, i);
    FilterCons(WithKey(RowKey(canon), k), rows[i], RemoveAt(rows, i));
  }

  /**
   The comparator takes rows for a multiset, hiding every change of their order, exactly when rows
   that share a row key are equal.
   */
  lemma OrderBlindExactly(canon: Json -> string, a: seq<Json>)
    ensures (forall b :: SameBag(a, b) ==> RowsAgree(canon, a, b)) <==> KeyDecides(canon, a)
  {
    hide RowsAgree, SameBag, RowKey;
    if KeyDecides(canon, a) {
      hide KeyDecides;
      forall b | SameBag(a, b) ensures RowsAgree(canon, a, b) {
        RowsAgreeExactly(canon, a, b);
      }
    }
    if forall b :: SameBag(a, b) ==> RowsAgree(canon, a, b) {
      forall i, j | 0 <= i < j < |a| && RowKey(canon)(a[i]) == RowKey(canon)(a[j]) ensures a[i] == a[j] {
        MoveToFront(a, i);
        MoveToFront(a, j);
        FrontsAgree(canon, a, i, j);
      }
    }
  }

  /** Either of two rows of one key can be moved to the front of its class. */
  lemma FrontsAgree(canon: Json -> string, a: seq<Json>, i: nat, j: nat)
    requires i < j < |a| && RowKey(canon)(a[i]) == RowKey(canon)(a[j])
    requires RowsAgree(canon, a, [a[i]] + RemoveAt(a, i)) && RowsAgree(canon, a, [a[j]] + RemoveAt(a, j))
    ensures a[i] == a[j]
  {
    var k := RowKey(canon)(a[i]);
    FrontOfClass(canon, a, i, k);
    FrontOfClass(canon, a, j, k);
  }

  lemma FilterPair(p: Json -> bool, x: Json, y: Json)
    requires p(x) && p(y)
    ensures Filter(p, [x, y]) == [x, y]
  {
    FilterAll(p, [x, y]);
  }

  /** Without distinct keys a mere change of row order is reported as a difference. */
  lemma SharedKeyOrderVisible(canon: Json -> string, x: Json, y: Json)
    requires x != y && RowKey(canon)(x) == RowKey(canon)(y)
    ensures SameBag([x, y], [y, x])
    ensures !RowsAgree(canon, [x, y], [y, x])
  {
    var p := WithKey(RowKey(canon), RowKey(canon)(x));
    FilterPair(p, x, y);
    FilterPair(p, y, x);
    assert [x, y][0] != [y, x][0];
    assert Filter(p, [x, y]) != Filter(p, [y, x]);
    assert multiset([x, y]) == multiset{x, y};
  }

  // ----- the comparison

  function Number(n: nat): Json {
    JNum(Numeral(n, 0))
  }

  function Min(a: nat, b: nat): nat {
    if a < b then a else b
  }

  /** A difference between the snapshot lists, in their lengths or at one of the first `n` places. */
  ghost predicate SnapshotReported(gs: seq<Json>, ws: seq<Json>, n: nat, d: Diff)
    requires n <= |gs| && n <= |ws|
  {
    || (|gs| != |ws| && d == Diff("snapshots.length", Number(|gs|), Number(|ws|)))
    || exists i :: 0 <= i < n && gs[i] != ws[i] && d == Diff("snapshots[" + Itoa(i) + "]", gs[i], ws[i])
  }

  /** A difference between the two `i`-th observations: their schemas, or their rows as sorted. */
  ghost predicate ObservationReported(canon: Json -> string, i: nat, g: Json, w: Json, d: Diff) {
    g.JObj? && w.JObj? &&
    var a, b := Get(g.members, "iceberg-schema"), Get(w.members, "iceberg-schema");
    var x, y := Arr(Get(g.members, "decoded-rows")), Arr(Get(w.members, "decoded-rows"));
    || (a != b && d == Diff("observations[" + Itoa(i) + "].iceberg-schema", a, b))
    || (!RowsAgree(canon, x, y)
        && d == Diff("observations[" + Itoa(i) + "].decoded-rows", JArr(SortedRows(canon, x)), JArr(SortedRows(canon, y))))
  }

  /** The differences of two outputs, part by part. */
  ghost predicate Reported(canon: Json -> string, got: map<string, Json>, want: map<string, Json>, d: Diff) {
    var gs, ws := Arr(Get(got, "snapshots")), Arr(Get(want, "snapshots"));
    var go, wo := Arr(Get(got, "observations")), Arr(Get(want, "observations"));
    || (BoolOr(Get(got, "accept"), true) != BoolOr(Get(want, "accept"), true)
        && d == Diff("accept", Get(got, "accept"), Get(want, "accept")))
    || SnapshotReported(gs, ws, Min(|gs|, |ws|), d)
    || (|go| != |wo| && d == Diff("observations.length", Number(|go|), Number(|wo|)))
    || exists i :: 0 <= i < Min(|go|, |wo|) && ObservationReported(canon, i, go[i], wo[i], d)
  }

  lemma SnapshotsFirst(gs: seq<Json>, ws: seq<Json>)
    ensures forall d :: SnapshotReported(gs, ws, 0, d) <==>
              |gs| != |ws| && d == Diff("snapshots.length", Number(|gs|), Number(|ws|))
  {
  }

  lemma SnapshotsNext(gs: seq<Json>, ws: seq<Json>, i: nat)
    requires i < |gs| && i < |ws|
    ensures forall d :: SnapshotReported(gs, ws, i + 1, d) <==>
              SnapshotReported(gs, ws, i, d) || (gs[i] != ws[i] && d == Diff("snapshots[" + Itoa(i) + "]", gs[i], ws[i]))
  {
    hide Itoa, Number;
  }

  /** The loop over snapshots: exact, in order. */
  method CompareSnapshots(canon: Json -> string, gs: seq<Json>, ws: seq<Json>, before: seq<Diff>)
    returns (diffs: seq<Diff>)
    requires Injective(canon)
    ensures before <= diffs
    ensures diffs == before <==> gs == ws
    ensures forall d :: d in diffs <==> d in before || SnapshotReported(gs, ws, Min(|gs|, |ws|), d)
  {
    hide SnapshotReported, Itoa, Number;
    diffs := before;
    SnapshotsFirst(gs, ws);
    if |gs| != |ws| {
      diffs := diffs + [Diff("snapshots.length", Number(|gs|), Number(|ws|))];
    }
    var i := 0;
    while i < Min(|gs|, |ws|)
      invariant 0 <= i <= Min(|gs|, |ws|)
      invariant before <= diffs
      invariant diffs == before <==> |gs| == |ws| && gs[..i] == ws[..i]
      invariant forall d :: d in diffs <==> d in before || SnapshotReported(gs, ws, i, d)
    {
      assert gs[..i + 1] == gs[..i] + [gs[i]] && ws[..i + 1] == ws[..i] + [ws[i]];
      SnapshotsNext(gs, ws, i);
      if !JsonEqual(canon, gs[i], ws[i]) {
        diffs := diffs + [Diff("snapshots[" + Itoa(i) + "]", gs[i], ws[i])];
      }
      i := i + 1;
    }
    assert gs[..|gs|] == gs && ws[..|ws|] == ws;
  }

  /** One pair of observations; a pair that is not two objects is skipped. */
  method CompareObservation(canon: Json -> string, i: nat, g: Json, w: Json, before: seq<Diff>)
    returns (diffs: seq<Diff>)
    requires Injective(canon)
    ensures before <= diffs
    ensures diffs == before <==> ObservationsMatch(canon, g, w)
    ensures forall d :: d in diffs <==> d in before || ObservationReported(canon, i, g, w, d)
  {
    diffs := before;
    if !g.JObj? || !w.JObj? {
      return;
    }
    var gSchema, wSchema := Get(g.members, "iceberg-schema"), Get(w.members, "iceberg-schema");
    if !JsonEqual(canon, gSchema, wSchema) {
      diffs := diffs + [Diff("observations[" + Itoa(i) + "].iceberg-schema", gSchema, wSchema)];
    }
    var gRows, wRows := Arr(Get(g.members, "decoded-rows")), Arr(Get(w.members, "decoded-rows"));
    SortedRowsExact(canon, gRows, wRows);
    var gSorted, wSorted := JArr(SortedRows(canon, gRows)), JArr(SortedRows(canon, wRows));
    if !JsonEqual(canon, gSorted, wSorted) {
      diffs := diffs + [Diff("observations[" + Itoa(i) + "].decoded-rows", gSorted, wSorted)];
    }
  }

  /**
   `compareOutput`: no diff is reported exactly when accept, the snapshot sequence and every pair of
   observations agree; and what is reported are the parts that differ, each under its path.
   */
  method CompareOutput(canon: Json -> string, got: map<string, Json>, want: map<string, Json>)
    returns (diffs: seq<Diff>)
    requires Injective(canon)
    ensures diffs == [] <==> SameOutput(canon, got, want)
    ensures forall d :: d in diffs <==> Reported(canon, got, want, d)
  {
    hide ObservationsMatch, ObservationReported, SnapshotReported;
    diffs := [];
    if BoolOr(Get(got, "accept"), true) != BoolOr(Get(want, "accept"), true) {
      diffs := [Diff("accept", Get(got, "accept"), Get(want, "accept"))];
    }
    ghost var accepted := diffs == [];
    ghost var before := diffs;
    diffs := CompareSnapshots(canon, Arr(Get(got, "snapshots")), Arr(Get(want, "snapshots")), diffs);
    assert diffs == [] <==> accepted && Arr(Get(got, "snapshots")) == Arr(Get(want, "snapshots"));
    ghost var clean := diffs == [];
    var go, wo := Arr(Get(got, "observations")), Arr(Get(want, "observations"));
    if |go| != |wo| {
      diffs := diffs + [Diff("observations.length", Number(|go|), Number(|wo|))];
    }
    ghost var sofar := diffs;
    var i := 0;
    while i < Min(|go|, |wo|)
      invariant 0 <= i <= Min(|go|, |wo|)
      invariant diffs == [] <==>
                clean && |go| == |wo| && forall j :: 0 <= j < i ==> ObservationsMatch(canon, go[j], wo[j])
      invariant forall d :: d in diffs <==>
                  d in sofar || exists j :: 0 <= j < i && ObservationReported(canon, j, go[j], wo[j], d)
    {
      diffs := CompareObservation(canon, i, go[i], wo[i], diffs);
      i := i + 1;
    }
  }

  /** Every observation is an object in whose rows a row key decides the row. */
  predicate WellKeyed(canon: Json -> string, observations: seq<Json>) {
    forall i :: 0 <= i < |observations| ==>
      && observations[i].JObj?
      && KeyDecides(canon, Arr(Get(observations[i].members, "decoded-rows")))
  }

  /** On well-keyed outputs a clean comparison is equality up to the order of rows. */
  lemma CleanMeansSameBags(canon: Json -> string, got: map<string, Json>, want: map<string, Json>)
    requires WellKeyed(canon, Arr(Get(got, "observations")))
    requires forall i :: 0 <= i < |Arr(Get(want, "observations"))| ==> Arr(Get(want, "observations"))[i].JObj?
    ensures SameOutput(canon, got, want) <==>
            var go, wo := Arr(Get(got, "observations")), Arr(Get(want, "observations"));
            && BoolOr(Get(got, "accept"), true) == BoolOr(Get(want, "accept"), true)
            && Arr(Get(got, "snapshots")) == Arr(Get(want, "snapshots"))
            && |go| == |wo|
            && forall i :: 0 <= i < |go| ==>
                 && Get(go[i].members, "iceberg-schema") == Get(wo[i].members, "iceberg-schema")
                 && SameBag(Arr(Get(go[i].members, "decoded-rows")), Arr(Get(wo[i].members, "decoded-rows")))
  {
    var go, wo := Arr(Get(got, "observations")), Arr(Get(want, "observations"));
    forall i | 0 <= i < |go| && |go| == |wo|
      ensures RowsAgree(canon, Arr(Get(go[i].members, "decoded-rows")), Arr(Get(wo[i].members, "decoded-rows"))) <==>
              SameBag(Arr(Get(go[i].members, "decoded-rows")), Arr(Get(wo[i].members, "decoded-rows")))
    {
      RowsAgreeExactly(canon, Arr(Get(go[i].members, "decoded-rows")), Arr(Get(wo[i].members, "decoded-rows")));
    }
  }
}
