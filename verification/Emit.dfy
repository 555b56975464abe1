/**
 What a runner emits: `Emit.java`, `Decode.java` and the two ways of labelling columns
 (`SchemaBuilder.canonicalIds`, `SchemaBuilder.canonicalIdsFromSchema`, and their Go twins).
 */
module Emit {
  import opened Wrappers
  import opened Text
  import opened Values

  datatype Json =
    | JNull
    | JBool(b: bool)
    | JNum(x: Numeral)
    | JStr(s: string)
    | JArr(items: seq<Json>)
    | JObj(members: map<string, Json>)

  datatype ValueNode = ValueNode(ty: string, value: Json)

  type DecodedRow = map<string, ValueNode>

  datatype SchemaField = SchemaField(fieldId: int, name: string, ty: string)

  datatype DeleteFileOut = DeleteFileOut(content: nat, format: string)

  datatype Summary = Summary(
    totalRecords: nat,
    addedRecords: Option<nat>,
    deletedRecords: Option<nat>,
    totalDeleteFiles: Option<nat>)

  datatype SnapshotOut = SnapshotOut(
    ordinal: nat,
    parent: Option<nat>,
    operation: string,
    summary: Summary,
    deleteFiles: seq<DeleteFileOut>)

  datatype AtOut = AtOrdinal(k: int) | AtName(name: string)

  datatype Observation = Observation(
    at: AtOut,
    bind: Option<string>,
    icebergSchema: seq<SchemaField>,
    decodedRows: seq<DecodedRow>)

  type Labels = map<string, int>

  function OmitZero(n: nat): Option<nat> {
    if n == 0 then None else Some(n)
  }

  // ----- labels

  /** The authored ids: `__rowkey` is 0, user columns keep the id the header declares. */
  function AuthoredLabels(fields: Schema): Labels {
    if fields == [] then map[ROW_KEY := 0]
    else AuthoredLabels(fields[..|fields| - 1])[fields[|fields| - 1].name := fields[|fields| - 1].id]
  }

  /** The inverse the Java runner keeps, from authored id to column name. */
  function AuthoredNames(fields: Schema): map<int, string> {
    if fields == [] then map[0 := ROW_KEY]
    else AuthoredNames(fields[..|fields| - 1])[fields[|fields| - 1].id := fields[|fields| - 1].name]
  }

  function UserColumns(s: Schema): nat {
    if s == [] then 0
    else UserColumns(s[..|s| - 1]) + if s[|s| - 1].name == ROW_KEY then 0 else 1
  }

  /** The ids by column position: `__rowkey` is 0, user columns count from 1. */
  function PositionalLabels(s: Schema): Labels {
    if s == [] then map[]
    else
      var f := s[|s| - 1];
      PositionalLabels(s[..|s| - 1])[f.name := if f.name == ROW_KEY then 0 else UserColumns(s)]
  }

  // ----- decoding

  function TypeName(ty: PType): string {
    match ty
    case TBool => "boolean"
    case TInt => "int"
    case TLong => "long"
    case TFloat => "float"
    case TDouble => "double"
    case TString => "string"
    case TDecimal(p, s) => "decimal(" + NatText(p) + ", " + NatText(s) + ")"
  }

  function Zeros(n: nat): (s: string)
    ensures |s| == n && forall i :: 0 <= i < n ==> s[i] == '0'
  {
    if n == 0 then "" else "0" + Zeros(n - 1)
  }

  /** The digits of the unscaled value, with zeros in front so that one is left before the point. */
  function PaddedDigits(x: Numeral): (s: string)
    ensures |s| > x.scale
  {
    var digits := NatText(if x.unscaled < 0 then -x.unscaled else x.unscaled);
    if |digits| <= x.scale then Zeros(x.scale + 1 - |digits|) + digits else digits
  }

  /** Digits with a point before the fraction; no point without one. */
  function Pointed(whole: string, fraction: string): string {
    whole + if fraction == "" then "" else "." + fraction
  }

  /** BigDecimal.toPlainString for a non-negative scale. */
  function PlainText(x: Numeral): string {
    var padded := PaddedDigits(x);
    var cut := |padded| - x.scale;
    (if x.unscaled < 0 then "-" else "") + Pointed(padded[..cut], padded[cut..])
  }

  function JsonOf(v: Value): Json {
    match v
    case BoolV(b) => JBool(b)
    case IntV(n) => JNum(Numeral(n, 0))
    case LongV(n) => JStr(Itoa(n))
    case FloatV(x) => JNum(x)
    case DoubleV(x) => JNum(x)
    case StrV(s) => JStr(s)
    case DecV(x) => JStr(PlainText(x))
  }

  /** `Decode.node`. */
  function NodeOf(ty: PType, v: Value): ValueNode {
    ValueNode(TypeName(ty), JsonOf(v))
  }

  /** `Decode.row` over the first columns of the schema. */
  function DecodeColumns(s: Schema, labels: Labels, r: Record): DecodedRow {
    if s == [] then map[]
    else
      var f := s[|s| - 1];
      var out := DecodeColumns(s[..|s| - 1], labels, r);
      if f.name in r && f.name in labels then out[Itoa(labels[f.name]) := NodeOf(f.ty, r[f.name])] else out
  }

  function Decoder(s: Schema, labels: Labels): Record -> DecodedRow {
    r => DecodeColumns(s, labels, r)
  }

  /** `Decode.schemaFields`. */
  function SchemaFields(s: Schema, labels: Labels): (r: Result<seq<SchemaField>, Problem>)
    ensures r.Ok? ==> |r.value| == |s|
  {
    if s == [] then Ok([])
    else
      var front :- SchemaFields(s[..|s| - 1], labels);
      var f := s[|s| - 1];
      if f.name !in labels then Err(NoCanonicalId(f.name))
      else Ok(front + [SchemaField(labels[f.name], f.name, TypeName(f.ty))])
  }

  // ----- laws

  lemma {:induction false} SchemaFieldsAt(s: Schema, labels: Labels)
    ensures SchemaFields(s, labels).Ok? <==> forall i :: 0 <= i < |s| ==> s[i].name in labels
    ensures SchemaFields(s, labels).Ok? ==> forall i :: 0 <= i < |s| ==>
              SchemaFields(s, labels).value[i] == SchemaField(labels[s[i].name], s[i].name, TypeName(s[i].ty))
  {
    if s != [] {
      SchemaFieldsAt(s[..|s| - 1], labels);
    }
  }

  /** The first column without a label is the one the error names. */
  lemma {:induction false} FirstUnlabelled(s: Schema, labels: Labels, c: nat)
    requires c < |s| && s[c].name !in labels && forall i :: 0 <= i < c ==> s[i].name in labels
    ensures SchemaFields(s, labels) == Err(NoCanonicalId(s[c].name))
  {
    if c < |s| - 1 {
      FirstUnlabelled(s[..|s| - 1], labels, c);
    } else {
      SchemaFieldsAt(s[..|s| - 1], labels);
    }
  }

  predicate HasColumn(s: Schema, n: string) {
    exists i :: 0 <= i < |s| && s[i].name == n
  }

  ghost predicate NamesColumns(labels: Labels, s: Schema) {
    forall n :: n in labels <==> HasColumn(s, n)
  }

  lemma HasColumnSplit(s: Schema, n: string)
    requires s != []
    ensures HasColumn(s, n) <==> HasColumn(s[..|s| - 1], n) || s[|s| - 1].name == n
  {
    var front := s[..|s| - 1];
    if HasColumn(front, n) {
      var i :| 0 <= i < |front| && front[i].name == n;
      assert s[i].name == n;
    }
    if HasColumn(s, n) {
      var i :| 0 <= i < |s| && s[i].name == n;
      assert i < |front| ==> front[i].name == n;
    }
  }

  lemma {:induction false} PositionalLabelsKeys(s: Schema)
    ensures NamesColumns(PositionalLabels(s), s)
  {
    if s != [] {
      PositionalLabelsKeys(s[..|s| - 1]);
      forall n ensures n in PositionalLabels(s) <==> HasColumn(s, n) {
        HasColumnSplit(s, n);
      }
    }
  }

  /** The label of the column at position `i`. */
  lemma {:induction false} PositionalLabelsAt(s: Schema, i: nat)
    requires DistinctNames(s) && i < |s|
    ensures s[i].name in PositionalLabels(s)
    ensures PositionalLabels(s)[s[i].name] == if s[i].name == ROW_KEY then 0 else UserColumns(s[..i + 1])
  {
    var last := |s| - 1;
    if i < last {
      var front := s[..last];
      assert front[i] == s[i] && front[..i + 1] == s[..i + 1];
      PositionalLabelsAt(front, i);
      assert s[i].name != s[last].name;
    } else {
      assert s[..i + 1] == s;
    }
  }

  lemma {:induction false} UserColumnsGrow(s: Schema, i: nat, j: nat)
    requires i <= j <= |s|
    ensures UserColumns(s[..i]) <= UserColumns(s[..j])
    decreases j
  {
    if i < j {
      assert s[..j][..j - 1] == s[..j - 1];
      UserColumnsGrow(s, i, j - 1);
    }
  }

  lemma UserColumnsStep(s: Schema, j: nat)
    requires j < |s|
    ensures UserColumns(s[..j + 1]) == UserColumns(s[..j]) + if s[j].name == ROW_KEY then 0 else 1
  {
    assert s[..j + 1][..j] == s[..j];
  }

  /** Positional labels of different columns differ. */
  lemma PositionalLabelsInjective(s: Schema, i: nat, j: nat)
    requires DistinctNames(s) && i < j < |s|
    ensures s[i].name in PositionalLabels(s) && s[j].name in PositionalLabels(s)
    ensures PositionalLabels(s)[s[i].name] != PositionalLabels(s)[s[j].name]
  {
    PositionalLabelsAt(s, i);
    PositionalLabelsAt(s, j);
    UserColumnsStep(s, j);
    UserColumnsStep(s, i);
    UserColumnsGrow(s, i + 1, j);
    assert s[i].name != s[j].name;
  }

  /** The header's ids number its columns 1, 2, 3 and so on. */
  predicate IdsArePositions(fields: Schema) {
    forall i :: 0 <= i < |fields| ==> fields[i].id == i + 1
  }

  /** The authored id of column `c`, counting `__rowkey` in front. */
  function ColumnId(header: Schema, c: nat): int
    requires c <= |header|
  {
    if c == 0 then 0 else header[c - 1].id
  }

  /** No two columns have the same authored id, the row key's 0 included. */
  predicate UsableIds(header: Schema) {
    forall c, d :: 0 <= c < d <= |header| ==> ColumnId(header, c) != ColumnId(header, d)
  }

  /** Every column has a label of its own. */
  predicate LabelsApart(s: Schema, labels: Labels) {
    && (forall i :: 0 <= i < |s| ==> s[i].name in labels)
    && (forall i, j :: 0 <= i < j < |s| ==> labels[s[i].name] != labels[s[j].name])
  }

  lemma {:induction false} AuthoredLabelsKeys(fields: Schema)
    ensures NamesColumns(AuthoredLabels(fields), BuildSchema(fields))
  {
    var all := BuildSchema(fields);
    assert all[0].name == ROW_KEY;
    if fields == [] {
      assert forall i :: 0 <= i < |all| ==> all[i].name == ROW_KEY;
    } else {
      var front := fields[..|fields| - 1];
      AuthoredLabelsKeys(front);
      assert all[..|all| - 1] == BuildSchema(front);
      forall n ensures n in AuthoredLabels(fields) <==> HasColumn(all, n) {
        HasColumnSplit(all, n);
      }
    }
  }

  predicate FreshName(fields: Schema, n: string) {
    forall i :: 0 <= i < |fields| ==> fields[i].name != n
  }

  lemma {:induction false} AuthoredRowKey(fields: Schema)
    requires FreshName(fields, ROW_KEY)
    ensures ROW_KEY in AuthoredLabels(fields) && AuthoredLabels(fields)[ROW_KEY] == 0
  {
    if fields != [] {
      AuthoredRowKey(fields[..|fields| - 1]);
    }
  }

  lemma {:induction false} AuthoredLabelsAt(fields: Schema, i: nat)
    requires DistinctNames(fields) && i < |fields|
    ensures fields[i].name in AuthoredLabels(fields)
    ensures AuthoredLabels(fields)[fields[i].name] == fields[i].id
  {
    if i < |fields| - 1 {
      AuthoredLabelsAt(fields[..|fields| - 1], i);
    }
  }

  lemma {:induction false} UserColumnsOfBuilt(fields: Schema, k: nat)
    requires DistinctNames(BuildSchema(fields)) && k <= |fields|
    ensures UserColumns(BuildSchema(fields)[..k + 1]) == k
  {
    var all := BuildSchema(fields);
    assert all[..k + 1][..k] == all[..k];
    if k == 0 {
      assert all[..1] == [all[0]];
    } else {
      UserColumnsOfBuilt(fields, k - 1);
      assert all[k].name != all[0].name;
    }
  }

  lemma BuiltColumns(fields: Schema)
    requires DistinctNames(BuildSchema(fields))
    ensures DistinctNames(fields) && FreshName(fields, ROW_KEY)
    ensures forall k :: 0 <= k < |fields| ==> BuildSchema(fields)[k + 1] == fields[k]
  {
    var all := BuildSchema(fields);
    forall k | 0 <= k < |fields| ensures all[k + 1] == fields[k] && fields[k].name != ROW_KEY {
      assert all[0].name != all[k + 1].name;
    }
    forall i, j | 0 <= i < j < |fields| ensures fields[i].name != fields[j].name {
      assert all[i + 1].name != all[j + 1].name;
    }
  }

  lemma PositionOfUserColumn(fields: Schema, i: nat)
    requires DistinctNames(BuildSchema(fields)) && i < |fields|
    ensures fields[i].name in PositionalLabels(BuildSchema(fields))
    ensures PositionalLabels(BuildSchema(fields))[fields[i].name] == i + 1
  {
    BuiltColumns(fields);
    PositionalLabelsAt(BuildSchema(fields), i + 1);
    UserColumnsOfBuilt(fields, i + 1);
  }

  lemma BothLabelsAt(fields: Schema, i: nat)
    requires DistinctNames(BuildSchema(fields)) && i < |fields|
    ensures fields[i].name in AuthoredLabels(fields) && AuthoredLabels(fields)[fields[i].name] == fields[i].id
    ensures fields[i].name in PositionalLabels(BuildSchema(fields))
    ensures PositionalLabels(BuildSchema(fields))[fields[i].name] == i + 1
  {
    BuiltColumns(fields);
    AuthoredLabelsAt(fields, i);
    PositionOfUserColumn(fields, i);
  }

  lemma BothLabelsOf(fields: Schema, n: string)
    requires DistinctNames(BuildSchema(fields)) && IdsArePositions(fields)
    ensures n in AuthoredLabels(fields) <==> n in PositionalLabels(BuildSchema(fields))
    ensures n in AuthoredLabels(fields) ==> AuthoredLabels(fields)[n] == PositionalLabels(BuildSchema(fields))[n]
  {
    hide AuthoredLabels, PositionalLabels, BuildSchema, DistinctNames, HasColumn;
    AuthoredLabelsKeys(fields);
    PositionalLabelsKeys(BuildSchema(fields));
    if n == ROW_KEY {
      RowKeyLabels(fields);
    } else if HasColumn(BuildSchema(fields), n) {
      BothLabelsAt(fields, UserColumn(fields, n));
    }
  }

  ghost function UserColumn(fields: Schema, n: string): (i: nat)
    requires n != ROW_KEY && HasColumn(BuildSchema(fields), n)
    ensures i < |fields| && fields[i].name == n
  {
    var k :| 0 <= k < |BuildSchema(fields)| && BuildSchema(fields)[k].name == n;
    k - 1
  }

  lemma RowKeyLabels(fields: Schema)
    requires DistinctNames(BuildSchema(fields))
    ensures ROW_KEY in AuthoredLabels(fields) && AuthoredLabels(fields)[ROW_KEY] == 0
    ensures ROW_KEY in PositionalLabels(BuildSchema(fields)) && PositionalLabels(BuildSchema(fields))[ROW_KEY] == 0
  {
    BuiltColumns(fields);
    AuthoredRowKey(fields);
    PositionalLabelsAt(BuildSchema(fields), 0);
  }

  lemma PositionsApart(s: Schema)
    requires DistinctNames(s)
    ensures LabelsApart(s, PositionalLabels(s))
  {
    forall i | 0 <= i < |s| ensures s[i].name in PositionalLabels(s) {
      PositionalLabelsAt(s, i);
    }
    forall i, j | 0 <= i < j < |s| ensures PositionalLabels(s)[s[i].name] != PositionalLabels(s)[s[j].name] {
      PositionalLabelsInjective(s, i, j);
    }
  }

  lemma AuthoredLabelOf(header: Schema, c: nat)
    requires DistinctNames(BuildSchema(header)) && c <= |header|
    ensures |BuildSchema(header)| == |header| + 1
    ensures BuildSchema(header)[c].name in AuthoredLabels(header)
    ensures AuthoredLabels(header)[BuildSchema(header)[c].name] == ColumnId(header, c)
  {
    hide AuthoredLabels, DistinctNames;
    NamesAreFresh(header);
    if c == 0 {
      AuthoredRowKey(header);
    } else {
      AuthoredLabelsAt(header, c - 1);
    }
  }

  lemma NamesAreFresh(header: Schema)
    requires DistinctNames(BuildSchema(header))
    ensures DistinctNames(header) && FreshName(header, ROW_KEY)
  {
    BuiltColumns(header);
  }

  /** Authored labels collide exactly when two header ids are equal or one is the row key's 0. */
  lemma AuthoredApartExactly(header: Schema)
    requires DistinctNames(BuildSchema(header))
    ensures LabelsApart(BuildSchema(header), AuthoredLabels(header)) <==> UsableIds(header)
  {
    var all, labels := BuildSchema(header), AuthoredLabels(header);
    AuthoredLabelOf(header, 0);
    hide BuildSchema, AuthoredLabels, DistinctNames, ColumnId;
    forall c | 0 <= c < |all| ensures all[c].name in labels {
      AuthoredLabelOf(header, c);
    }
    forall c, d | 0 <= c < d < |all|
      ensures labels[all[c].name] != labels[all[d].name] <==> ColumnId(header, c) != ColumnId(header, d)
    {
      AuthoredLabelOf(header, c);
      AuthoredLabelOf(header, d);
    }
  }

  /**
   The Go runner labels every observation by position, the Java runner by authored id until the
   first schema change: they agree exactly when the header numbers its columns in order.
   */
  lemma LabelsAgreeExactly(fields: Schema)
    requires DistinctNames(BuildSchema(fields))
    ensures AuthoredLabels(fields) == PositionalLabels(BuildSchema(fields)) <==> IdsArePositions(fields)
  {
    if IdsArePositions(fields) {
      forall n
        ensures n in AuthoredLabels(fields) <==> n in PositionalLabels(BuildSchema(fields))
        ensures n in AuthoredLabels(fields) ==> AuthoredLabels(fields)[n] == PositionalLabels(BuildSchema(fields))[n]
      {
        BothLabelsOf(fields, n);
      }
    }
    forall i | 0 <= i < |fields| && AuthoredLabels(fields) == PositionalLabels(BuildSchema(fields))
      ensures fields[i].id == i + 1
    {
      BothLabelsAt(fields, i);
    }
  }
}
