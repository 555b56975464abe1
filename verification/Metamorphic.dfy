/** `fuzz/main.go`: the check of one runner's output against the generator's own prediction. */
module Metamorphic {
  import opened Wrappers
  import opened Text
  import opened Seqs
  import opened Values
  import opened Emit
  import opened Compare
  import opened ReadDiff

  datatype SeedResult = ResultOk | SpecInvalid | Mismatch | RunnerError

  /** The row key a decoded row shows, if it shows one. */
  function ShownRowKey(row: Json): Option<string> {
    var node := if row.JObj? then Get(row.members, "0") else JNull;
    var value := if node.JObj? then Get(node.members, "value") else JNull;
    if value.JStr? then Some(value.s) else None
  }

  function ShownKey(): Json -> seq<string> {
    (row: Json) => if ShownRowKey(row).Some? then [ShownRowKey(row).value] else []
  }

  /** The keys the rows show, in row order. */
  function RowKeys(rows: seq<Json>): seq<string> {
    FlatMap(ShownKey(), rows)
  }

  lemma RowKeysSnoc(rows: seq<Json>, row: Json)
    ensures RowKeys(rows + [row]) == RowKeys(rows) + ShownKey()(row)
  {
    FlatMapAppend(ShownKey(), rows, [row]);
    assert [row][1..] == [];
    assert FlatMap(ShownKey(), [row]) == ShownKey()(row) + [];
  }

  function MembersOf(v: Json): map<string, Json> {
    if v.JObj? then v.members else map[]
  }

  /** `rowKeysOf`. */
  method RowKeysOf(obs: map<string, Json>) returns (keys: seq<string>)
    ensures keys == RowKeys(RowsOf(obs))
  {
    keys := [];
    var rows := RowsOf(obs);
    var i := 0;
    while i < |rows|
      invariant 0 <= i <= |rows|
      invariant keys == RowKeys(rows[..i])
    {
      assert rows[..i + 1] == rows[..i] + [rows[i]];
      RowKeysSnoc(rows[..i], rows[i]);
      if ShownRowKey(rows[i]).Some? {
        keys := keys + [ShownRowKey(rows[i]).value];
      }
      i := i + 1;
    }
    assert rows[..i] == rows;
  }

  /** A shown column that the prediction names has the predicted type. */
  predicate TypeAsPredicted(field: Json, want: map<string, string>) {
    var name := MemberText(field, "name");
    name != ROW_KEY && name in want ==> want[name] == MemberText(field, "type")
  }

  predicate TypesAsPredicted(fields: seq<Json>, want: map<string, string>) {
    forall i :: 0 <= i < |fields| ==> TypeAsPredicted(fields[i], want)
  }

  /** The first field of a wrong type has this name. */
  ghost predicate FirstWrong(fields: seq<Json>, want: map<string, string>, name: string) {
    exists i :: 0 <= i < |fields| && !TypeAsPredicted(fields[i], want) && MemberText(fields[i], "name") == name
                && forall j :: 0 <= j < i ==> TypeAsPredicted(fields[j], want)
  }

  /** `checkTypes`: the first shown column with a wrong type. */
  method CheckTypes(obs: map<string, Json>, want: map<string, string>) returns (wrong: Option<string>)
    ensures wrong.None? <==> TypesAsPredicted(Arr(Get(obs, "iceberg-schema")), want)
    ensures wrong.Some? ==> FirstWrong(Arr(Get(obs, "iceberg-schema")), want, wrong.value)
  {
    var fields := Arr(Get(obs, "iceberg-schema"));
    var i := 0;
    while i < |fields|
      invariant 0 <= i <= |fields|
      invariant forall j :: 0 <= j < i ==> TypeAsPredicted(fields[j], want)
    {
      var name := MemberText(fields[i], "name");
      if name != ROW_KEY && name in want && want[name] != MemberText(fields[i], "type") {
        return Some(name);
      }
      i := i + 1;
    }
    wrong := None;
  }

  /** The last observation shows exactly the predicted keys, in any order, and no wrong type. */
  ghost predicate FinalAsPredicted(out: map<string, Json>, wantKeys: seq<string>, wantTypes: map<string, string>) {
    var obs := Arr(Get(out, "observations"));
    && obs != []
    && var final := MembersOf(obs[|obs| - 1]);
       && SameBag(RowKeys(RowsOf(final)), wantKeys)
       && TypesAsPredicted(Arr(Get(final, "iceberg-schema")), wantTypes)
  }

  /** The checking half of `runSeed`: from the runner's exit code and, on success, its output. */
  method CheckSeed(code: int, out: map<string, Json>, finalRowKeys: seq<string>, finalTypes: map<string, string>)
    returns (r: SeedResult)
    ensures r == if code == 4 then ResultOk
                 else if code != 0 then SpecInvalid
                 else if FinalAsPredicted(out, finalRowKeys, finalTypes) then ResultOk else Mismatch
  {
    if code == 4 {
      return ResultOk;
    }
    if code != 0 {
      return SpecInvalid;
    }
    var obs := Arr(Get(out, "observations"));
    if |obs| == 0 {
      return Mismatch;
    }
    var final := MembersOf(obs[|obs| - 1]);
    var gotKeys := RowKeysOf(final);
    SortStringsCanonical(gotKeys, finalRowKeys);
    var sameKeys := EqualStrings(SortStrings(gotKeys), SortStrings(finalRowKeys));
    if !sameKeys {
      return Mismatch;
    }
    var wrong := CheckTypes(final, finalTypes);
    r := if wrong.Some? then Mismatch else ResultOk;
  }

  // ----- what the check does not see

  /** The observation with one more decoded row. */
  function WithRow(obs: map<string, Json>, row: Json): map<string, Json> {
    obs["decoded-rows" := JArr(RowsOf(obs) + [row])]
  }

  /** The output whose last observation shows one more row. */
  function WithFinalRow(out: map<string, Json>, row: Json): map<string, Json> {
    var obs := Arr(Get(out, "observations"));
    if obs == [] then out
    else out["observations" := JArr(obs[..|obs| - 1] + [JObj(WithRow(MembersOf(obs[|obs| - 1]), row))])]
  }

  /** An accepted output stays accepted with one more row exactly when that row shows no key text. */
  lemma ExtraRowAccepted(out: map<string, Json>, row: Json, wantKeys: seq<string>, wantTypes: map<string, string>)
    requires FinalAsPredicted(out, wantKeys, wantTypes)
    ensures FinalAsPredicted(WithFinalRow(out, row), wantKeys, wantTypes) <==> ShownRowKey(row).None?
  {
    var obs := Arr(Get(out, "observations"));
    var final := MembersOf(obs[|obs| - 1]);
    var more := Arr(Get(WithFinalRow(out, row), "observations"));
    assert more[|more| - 1] == JObj(WithRow(final, row));
    assert RowsOf(WithRow(final, row)) == RowsOf(final) + [row];
    RowKeysSnoc(RowsOf(final), row);
    if ShownRowKey(row).Some? {
      assert |multiset(RowKeys(RowsOf(final)))| == |multiset(wantKeys)|;
      assert |RowKeys(RowsOf(final) + [row])| == |wantKeys| + 1;
    }
  }
}
