/** `readdiff.go`: the read differ's judge, on the first observation of two outputs. */
module ReadDiff {
  import opened Wrappers
  import opened Text
  import opened Seqs
  import opened Emit
  import opened Compare

  datatype Finding = Agree | MissingObservation | TypeDiffers(name: string) | RowsDiffer

  function TextOr(v: Json, def: string): string {
    if v.JStr? then v.s else def
  }

  function MemberText(v: Json, k: string): string {
    if v.JObj? then TextOr(Get(v.members, k), "") else ""
  }

  function FirstObs(out: map<string, Json>): Option<map<string, Json>> {
    var obs := Arr(Get(out, "observations"));
    if obs == [] || !obs[0].JObj? then None else Some(obs[0].members)
  }

  /** Column name to type; a repeated name keeps its last type. */
  function SchemaMap(fields: seq<Json>): map<string, string> {
    if fields == [] then map[]
    else
      var f := fields[|fields| - 1];
      SchemaMap(fields[..|fields| - 1])[MemberText(f, "name") := MemberText(f, "type")]
  }

  /** `schemaByName`. */
  method SchemaByName(obs: map<string, Json>) returns (m: map<string, string>)
    ensures m == SchemaMap(Arr(Get(obs, "iceberg-schema")))
  {
    m := map[];
    var fields := Arr(Get(obs, "iceberg-schema"));
    var i := 0;
    while i < |fields|
      invariant 0 <= i <= |fields|
      invariant m == SchemaMap(fields[..i])
    {
      assert fields[..i + 1][..i] == fields[..i];
      m := m[MemberText(fields[i], "name") := MemberText(fields[i], "type")];
      i := i + 1;
    }
    assert fields[..i] == fields;
  }

  function RowsOf(obs: map<string, Json>): seq<Json> {
    Arr(Get(obs, "decoded-rows"))
  }

  /** `canonRows`: encode every row, then sort the encodings. */
  method CanonRows(canon: Json -> string, obs: map<string, Json>) returns (rows: seq<string>)
    ensures rows == SortStrings(Map(canon, RowsOf(obs)))
  {
    rows := [];
    var i := 0;
    while i < |RowsOf(obs)|
      invariant 0 <= i <= |RowsOf(obs)|
      invariant rows == Map(canon, RowsOf(obs)[..i])
    {
      assert RowsOf(obs)[..i + 1] == RowsOf(obs)[..i] + [RowsOf(obs)[i]];
      MapSnoc(canon, RowsOf(obs)[..i], RowsOf(obs)[i]);
      rows := rows + [canon(RowsOf(obs)[i])];
      i := i + 1;
    }
    assert RowsOf(obs)[..i] == RowsOf(obs);
    rows := SortStrings(rows);
  }

  method EqualStrings(a: seq<string>, b: seq<string>) returns (eq: bool)
    ensures eq <==> a == b
  {
    if |a| != |b| {
      return false;
    }
    var i := 0;
    while i < |a|
      invariant 0 <= i <= |a|
      invariant a[..i] == b[..i]
    {
      if a[i] != b[i] {
        return false;
      }
      assert a[..i + 1] == a[..i] + [a[i]] && b[..i + 1] == b[..i] + [b[i]];
      i := i + 1;
    }
    assert a[..i] == a && b[..i] == b;
    eq := true;
  }

  /** Every column of the golden schema has its type in the other; extra columns are not looked at. */
  predicate SchemaContained(golden: map<string, string>, other: map<string, string>) {
    forall n :: n in golden ==> n in other && other[n] == golden[n]
  }

  lemma CanonBags(canon: Json -> string, a: seq<Json>, b: seq<Json>)
    requires Injective(canon)
    ensures SameBag(Map(canon, a), Map(canon, b)) <==> SameBag(a, b)
  {
    if SameBag(a, b) {
      MapBag(canon, a, b);
    }
    if SameBag(Map(canon, a), Map(canon, b)) {
      BagsApart(canon, a, b);
    }
  }

  /** The canonical row lists are equal exactly when the row bags are, whatever the keys. */
  lemma CanonRowsExact(canon: Json -> string, a: seq<Json>, b: seq<Json>)
    requires Injective(canon)
    ensures SortStrings(Map(canon, a)) == SortStrings(Map(canon, b)) <==> SameBag(a, b)
  {
    SortStringsCanonical(Map(canon, a), Map(canon, b));
    CanonBags(canon, a, b);
  }

  /** The verdict the read differ gives exactly when it reports nothing. */
  ghost predicate ReadsAgree(golden: map<string, Json>, got: map<string, Json>) {
    && FirstObs(golden).Some? && FirstObs(got).Some?
    && SchemaContained(SchemaMap(Arr(Get(FirstObs(golden).value, "iceberg-schema"))),
                       SchemaMap(Arr(Get(FirstObs(got).value, "iceberg-schema"))))
    && SameBag(RowsOf(FirstObs(golden).value), RowsOf(FirstObs(got).value))
  }

  /** A column of the golden that the other has not, or under another type. */
  ghost predicate WrongType(golden: map<string, Json>, got: map<string, Json>, n: string) {
    && FirstObs(golden).Some? && FirstObs(got).Some?
    && var a := SchemaMap(Arr(Get(FirstObs(golden).value, "iceberg-schema")));
       var b := SchemaMap(Arr(Get(FirstObs(got).value, "iceberg-schema")));
       n in a && (n !in b || b[n] != a[n])
  }

  lemma AgreementParts(golden: map<string, Json>, got: map<string, Json>)
    requires FirstObs(golden).Some? && FirstObs(got).Some?
    ensures var a := SchemaMap(Arr(Get(FirstObs(golden).value, "iceberg-schema")));
            var b := SchemaMap(Arr(Get(FirstObs(got).value, "iceberg-schema")));
            && (ReadsAgree(golden, got) <==>
                  SchemaContained(a, b) && SameBag(RowsOf(FirstObs(golden).value), RowsOf(FirstObs(got).value)))
            && forall n :: WrongType(golden, got, n) <==> n in a && (n !in b || b[n] != a[n])
  {
    hide SchemaMap, RowsOf, SameBag;
  }

  /** `diffObservation`: the first column of a wrong type in some order, or else rows that differ. */
  method DiffObservation(canon: Json -> string, golden: map<string, Json>, got: map<string, Json>)
    returns (f: Finding)
    requires Injective(canon)
    ensures f == Agree <==> ReadsAgree(golden, got)
    ensures f == MissingObservation <==> FirstObs(golden).None? || FirstObs(got).None?
    ensures f.TypeDiffers? ==> WrongType(golden, got, f.name)
    ensures f == RowsDiffer ==>
              && FirstObs(golden).Some? && FirstObs(got).Some? && (forall n :: !WrongType(golden, got, n))
              && !SameBag(RowsOf(FirstObs(golden).value), RowsOf(FirstObs(got).value))
  {
    hide RowsOf, SchemaMap;
    var go, gt := FirstObs(golden), FirstObs(got);
    if go.None? || gt.None? {
      return MissingObservation;
    }
    AgreementParts(golden, got);
    hide ReadsAgree, WrongType, SameBag;
    var gs := SchemaByName(go.value);
    var ts := SchemaByName(gt.value);
    var rest := gs.Keys;
    while rest != {}
      invariant rest <= gs.Keys
      invariant forall n :: n in gs && n !in rest ==> n in ts && ts[n] == gs[n]
      decreases rest
    {
      var name := AnyOf(rest);
      if name !in ts || ts[name] != gs[name] {
        return TypeDiffers(name);
      }
      rest := rest - {name};
    }
    var gRows := CanonRows(canon, go.value);
    var tRows := CanonRows(canon, gt.value);
    CanonRowsExact(canon, RowsOf(go.value), RowsOf(gt.value));
    var same := EqualStrings(gRows, tRows);
    f := if same then Agree else RowsDiffer;
  }

  // ----- the two judges

  /** What the golden comparator calls clean, the read differ calls agreement. */
  lemma CleanCompareImpliesReadsAgree(canon: Json -> string, golden: map<string, Json>, got: map<string, Json>)
    requires SameOutput(canon, got, golden)
    requires FirstObs(golden).Some? && FirstObs(got).Some?
    ensures ReadsAgree(golden, got)
  {
    var a, b := Arr(Get(got, "observations"))[0], Arr(Get(golden, "observations"))[0];
    assert ObservationsMatch(canon, a, b);
    RowsAgreeBags(canon, RowsOf(a.members), RowsOf(b.members));
  }

  /** The converse holds of the first observation's rows, when a row key decides the row. */
  lemma ReadsAgreeImpliesRowsAgree(canon: Json -> string, golden: map<string, Json>, got: map<string, Json>)
    requires ReadsAgree(golden, got)
    requires KeyDecides(canon, RowsOf(FirstObs(got).value))
    ensures RowsAgree(canon, RowsOf(FirstObs(got).value), RowsOf(FirstObs(golden).value))
  {
    RowsAgreeExactly(canon, RowsOf(FirstObs(got).value), RowsOf(FirstObs(golden).value));
  }

  /** The read differ looks at the golden's columns only: a reader may add one and still agree. */
  lemma {:induction false} ExtraColumnUnseen(fields: seq<Json>, extra: Json, golden: map<string, Json>, got: map<string, Json>)
    requires FirstObs(golden).Some? && FirstObs(got).Some?
    requires Get(FirstObs(golden).value, "iceberg-schema") == JArr(fields)
    requires Get(FirstObs(got).value, "iceberg-schema") == JArr(fields + [extra])
    requires RowsOf(FirstObs(golden).value) == RowsOf(FirstObs(got).value)
    ensures ReadsAgree(golden, got) <==>
            (MemberText(extra, "name") in SchemaMap(fields) ==>
               SchemaMap(fields)[MemberText(extra, "name")] == MemberText(extra, "type"))
  {
    var all := fields + [extra];
    assert all[..|all| - 1] == fields;
    assert SchemaMap(all) == SchemaMap(fields)[MemberText(extra, "name") := MemberText(extra, "type")];
  }
}
