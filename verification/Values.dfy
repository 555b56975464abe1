/**
 Column types, authored values, and records: `TypedValue.java` (an authored value becomes the Java
 value a record holds), `SchemaBuilder.java` (the schema with its leading `__rowkey` column) and
 the record half of `Interpret.toRecord`. Promotion is the widening of the Iceberg table
 specification's "Schema Evolution" section.
 */
module Values {
  import opened Wrappers
  import opened Text

  const ROW_KEY := "__rowkey"
  const ROW_KEY_FIELD_ID := 100000

  /** A decimal numeral: unscaled * 10^-scale. */
  datatype Numeral = Numeral(unscaled: int, scale: nat)

  datatype PType = TBool | TInt | TLong | TFloat | TDouble | TString | TDecimal(precision: nat, scale: nat)

  /** The Java value a record holds. Float and double values are exact numerals. */
  datatype Value =
    | BoolV(b: bool)
    | IntV(n: int)
    | LongV(n: int)
    | FloatV(x: Numeral)
    | DoubleV(x: Numeral)
    | StrV(s: string)
    | DecV(x: Numeral)

  /** An authored value with its physical-type tag; a struct, list or map has no scalar form. */
  datatype TypedValue = Scalar(tag: string, text: string) | Nested(tag: string)

  datatype Field = Field(id: int, name: string, ty: PType, required: bool)

  type Schema = seq<Field>

  /** A record: the non-null columns by name. */
  type Record = map<string, Value>

  datatype RowIn = RowIn(rowKey: Option<string>, vals: map<string, TypedValue>)

  datatype Problem =
    | BadScalar(text: string)
    | NestedScalar
    | NullRequired(name: string)
    | WrongDecimal(name: string)
    | MissingValue(term: string)
    | UnknownTerm(term: string)
    | NullLiteral
    | BadPredicate(kind: string)
    | TooFewArgs(kind: string)
    | DuplicateColumn
    | MissingPredicate
    | NoSnapshot
    | CommitRejected
    | UnknownFieldId(id: int)
    | IllegalPromotion(name: string)
    | UnknownBind(name: string)
    | UnknownOrdinal(k: int)
    | NoCanonicalId(name: string)

  // ----- numbers

  function Pow10(n: nat): nat {
    if n == 0 then 1 else 10 * Pow10(n - 1)
  }

  function Compare3(a: int, b: int): int {
    if a < b then -1 else if a == b then 0 else 1
  }

  function CompareNumeral(a: Numeral, b: Numeral): int {
    Compare3(a.unscaled * Pow10(b.scale), b.unscaled * Pow10(a.scale))
  }

  function BoolRank(b: bool): int {
    if b then 1 else 0
  }

  /** Java's compareTo for two values of one column; column typing rules out the last case. */
  function Compare(a: Value, b: Value): int {
    match (a, b)
    case (BoolV(x), BoolV(y)) => Compare3(BoolRank(x), BoolRank(y))
    case (IntV(x), IntV(y)) => Compare3(x, y)
    case (LongV(x), LongV(y)) => Compare3(x, y)
    case (FloatV(x), FloatV(y)) => CompareNumeral(x, y)
    case (DoubleV(x), DoubleV(y)) => CompareNumeral(x, y)
    case (StrV(x), StrV(y)) => if x == y then 0 else if StrLe(x, y) then -1 else 1
    case (DecV(x), DecV(y)) => CompareNumeral(x, y)
    case _ => 1
  }

  // ----- scalars

  function IndexOfDot(s: string): (i: nat)
    ensures i <= |s|
  {
    if s == [] || s[0] == '.' then 0 else 1 + IndexOfDot(s[1..])
  }

  /** A plain decimal numeral such as -12.50; the authored scale is kept, as BigDecimal does. */
  function ParseNumeral(s: string): Option<Numeral> {
    var signed := s != [] && (s[0] == '-' || s[0] == '+');
    var body := if signed then s[1..] else s;
    var dot := IndexOfDot(body);
    var whole := body[..dot];
    var fraction := if dot < |body| then body[dot + 1..] else [];
    var digits := whole + fraction;
    if digits == [] || !AllDigits(digits) then None
    else
      var value: int := DigitsValue(digits);
      Some(Numeral(if signed && s[0] == '-' then -value else value, |fraction|))
  }

  /** No trailing zero in the fraction. */
  predicate Normal(x: Numeral) {
    x.scale == 0 || x.unscaled % 10 != 0
  }

  /** Drop trailing zeros of the fraction: equal floats get equal numerals. */
  function Normalize(x: Numeral): (r: Numeral)
    ensures Normal(r)
    decreases x.scale
  {
    if x.scale > 0 && x.unscaled % 10 == 0 then Normalize(Numeral(x.unscaled / 10, x.scale - 1)) else x
  }

  predicate Fits32(n: int) {
    -0x8000_0000 <= n < 0x8000_0000
  }

  predicate Fits64(n: int) {
    -0x8000_0000_0000_0000 <= n < 0x8000_0000_0000_0000
  }

  predicate IsTrueText(s: string) {
    |s| == 4 && s[0] in "tT" && s[1] in "rR" && s[2] in "uU" && s[3] in "eE"
  }

  function ParseValue(ty: PType, text: string): Option<Value> {
    match ty
    case TBool => Some(BoolV(IsTrueText(text)))
    case TInt => if ParseInt(text).Some? && Fits32(ParseInt(text).value) then Some(IntV(ParseInt(text).value)) else None
    case TLong => if ParseInt(text).Some? && Fits64(ParseInt(text).value) then Some(LongV(ParseInt(text).value)) else None
    case TFloat => if ParseNumeral(text).Some? then Some(FloatV(Normalize(ParseNumeral(text).value))) else None
    case TDouble => if ParseNumeral(text).Some? then Some(DoubleV(Normalize(ParseNumeral(text).value))) else None
    case TString => Some(StrV(text))
    case TDecimal(_, _) => if ParseNumeral(text).Some? then Some(DecV(ParseNumeral(text).value)) else None
  }

  /** `TypedValue.isNull`: only the tag decides. */
  predicate JavaIsNull(tv: TypedValue) {
    tv.Scalar? && tv.tag == "null"
  }

  /** `TypedValue.toJavaValue` for a known column type; None is Java null. */
  function ToJavaValue(tv: TypedValue, ty: PType): Result<Option<Value>, Problem> {
    if JavaIsNull(tv) then Ok(None)
    else if tv.Nested? then Err(NestedScalar)
    else if ParseValue(ty, tv.text).None? then Err(BadScalar(tv.text))
    else Ok(ParseValue(ty, tv.text))
  }

  // ----- schemas

  predicate DistinctNames(s: Schema) {
    forall i, j :: 0 <= i < j < |s| ==> s[i].name != s[j].name
  }

  function TypeOf(s: Schema, name: string): Option<PType> {
    if s == [] then None else if s[0].name == name then Some(s[0].ty) else TypeOf(s[1..], name)
  }

  /** The header schema with the synthetic row-key column in front. */
  function BuildSchema(fields: Schema): Schema {
    [Field(ROW_KEY_FIELD_ID, ROW_KEY, TString, false)] + fields
  }

  // ----- promotion

  predicate LegalPromotion(from: PType, to: PType) {
    || from == to
    || (from.TInt? && to.TLong?)
    || (from.TFloat? && to.TDouble?)
    || (from.TDecimal? && to.TDecimal? && from.scale == to.scale && from.precision <= to.precision)
  }

  /** How a reader presents a stored value under a column type that may have been promoted. */
  function Widen(ty: PType, v: Value): Value {
    match (ty, v)
    case (TLong, IntV(n)) => LongV(n)
    case (TDouble, FloatV(x)) => DoubleV(x)
    case _ => v
  }

  function Project(s: Schema): Record -> Record {
    r => map n | n in r && TypeOf(s, n).Some? :: Widen(TypeOf(s, n).value, r[n])
  }

  /** `later` is `earlier` with some columns promoted. */
  predicate Widens(earlier: Schema, later: Schema) {
    |earlier| == |later| &&
    forall i :: 0 <= i < |earlier| ==>
      && earlier[i].name == later[i].name
      && earlier[i].id == later[i].id
      && earlier[i].required == later[i].required
      && LegalPromotion(earlier[i].ty, later[i].ty)
  }

  /** Every column of the record is known and already has its column's type. */
  predicate Conforms(s: Schema, r: Record) {
    forall n :: n in r ==> TypeOf(s, n).Some? && Widen(TypeOf(s, n).value, r[n]) == r[n]
  }

  lemma WidensTransitive(a: Schema, b: Schema, c: Schema)
    requires Widens(a, b) && Widens(b, c)
    ensures Widens(a, c)
  {
  }

  lemma {:induction false} WidensTypes(a: Schema, b: Schema, n: string)
    requires Widens(a, b)
    ensures TypeOf(a, n).Some? <==> TypeOf(b, n).Some?
    ensures TypeOf(a, n).Some? ==> LegalPromotion(TypeOf(a, n).value, TypeOf(b, n).value)
  {
    if a != [] && a[0].name != n {
      assert Widens(a[1..], b[1..]);
      WidensTypes(a[1..], b[1..], n);
    }
  }

  /** Reading through an older schema first changes nothing. */
  lemma ProjectCompose(a: Schema, b: Schema, r: Record)
    requires Widens(a, b)
    ensures Project(b)(Project(a)(r)) == Project(b)(r)
  {
    forall n ensures TypeOf(a, n).Some? <==> TypeOf(b, n).Some?
      ensures TypeOf(a, n).Some? ==> LegalPromotion(TypeOf(a, n).value, TypeOf(b, n).value)
    {
      WidensTypes(a, b, n);
    }
    hide TypeOf, LegalPromotion;
    var x, y := Project(b)(Project(a)(r)), Project(b)(r);
    forall n ensures n in x <==> n in y ensures n in x ==> x[n] == y[n] {
      if n in x {
        WidenTwice(TypeOf(a, n).value, TypeOf(b, n).value, r[n]);
      }
    }
  }

  lemma WidenTwice(a: PType, b: PType, v: Value)
    requires LegalPromotion(a, b)
    ensures Widen(b, Widen(a, v)) == Widen(b, v)
  {
  }

  lemma ProjectConforming(s: Schema, r: Record)
    ensures Conforms(s, Project(s)(r))
    ensures Conforms(s, r) ==> Project(s)(r) == r
  {
    if Conforms(s, r) {
      var p := Project(s)(r);
      assert forall n :: n in p <==> n in r;
      assert forall n :: n in p ==> p[n] == r[n];
    }
  }

  lemma WidensRefl(s: Schema)
    ensures Widens(s, s)
  {
  }

  // ----- rows

  /** One column of `Interpret.toRecord`. */
  function ColumnValue(f: Field, row: RowIn): Result<Option<Value>, Problem> {
    if f.name == ROW_KEY then Ok(if row.rowKey.Some? then Some(StrV(row.rowKey.value)) else None)
    else if f.name !in row.vals then Ok(None)
    else ToJavaValue(row.vals[f.name], f.ty)
  }

  /** `Interpret.toRecord`. */
  function ToRecord(s: Schema, row: RowIn): Result<Record, Problem> {
    if s == [] then Ok(map[])
    else
      var rest :- ToRecord(s[..|s| - 1], row);
      var f := s[|s| - 1];
      var v :- ColumnValue(f, row);
      Ok(if v.Some? then rest[f.name := v.value] else rest)
  }

  /** The records of one append, in order; the first bad row decides the error. */
  function ToRecords(s: Schema, rows: seq<RowIn>): (r: Result<seq<Record>, Problem>)
    ensures r.Ok? ==> |r.value| == |rows|
  {
    if rows == [] then Ok([])
    else
      var front :- ToRecords(s, rows[..|rows| - 1]);
      var last :- ToRecord(s, rows[|rows| - 1]);
      Ok(front + [last])
  }

  /** What a decimal column holds: its own scale, and no more digits than its precision. */
  predicate FitsDecimal(x: Numeral, precision: nat, scale: nat) {
    x.scale == scale && |NatText(if x.unscaled < 0 then -x.unscaled else x.unscaled)| <= precision
  }

  /** The data-file writer refuses a null in a required column and a decimal its column cannot hold. */
  function ColumnProblem(f: Field, r: Record): Option<Problem> {
    if f.name !in r then if f.required then Some(NullRequired(f.name)) else None
    else if f.ty.TDecimal? && r[f.name].DecV? && !FitsDecimal(r[f.name].x, f.ty.precision, f.ty.scale)
    then Some(WrongDecimal(f.name))
    else None
  }

  function RecordProblem(s: Schema, r: Record): Option<Problem> {
    if s == [] then None
    else if ColumnProblem(s[0], r).Some? then ColumnProblem(s[0], r)
    else RecordProblem(s[1..], r)
  }

  function WriteProblem(s: Schema, rows: seq<Record>): Option<Problem> {
    if rows == [] then None
    else if RecordProblem(s, rows[0]).Some? then RecordProblem(s, rows[0])
    else WriteProblem(s, rows[1..])
  }

  lemma {:induction false} RecordProblemAt(s: Schema, r: Record)
    ensures RecordProblem(s, r) == None <==> forall i :: 0 <= i < |s| ==> ColumnProblem(s[i], r) == None
  {
    if s != [] {
      RecordProblemAt(s[1..], r);
      assert forall i :: 0 <= i < |s[1..]| ==> s[1..][i] == s[i + 1];
      assert forall i :: 0 < i < |s| ==> s[i] == s[1..][i - 1];
    }
  }

  // ----- typed records

  /** The value is one a column of this type is given. */
  predicate HasType(ty: PType, v: Value) {
    match ty
    case TBool => v.BoolV?
    case TInt => v.IntV? && Fits32(v.n)
    case TLong => v.LongV? && Fits64(v.n)
    case TFloat => v.FloatV? && Normal(v.x)
    case TDouble => v.DoubleV? && Normal(v.x)
    case TString => v.StrV?
    case TDecimal(_, _) => v.DecV?
  }

  predicate Typed(s: Schema, r: Record) {
    forall n :: n in r ==> TypeOf(s, n).Some? && HasType(TypeOf(s, n).value, r[n])
  }

  lemma {:induction false} ColumnOf(s: Schema, n: string) returns (i: nat)
    requires TypeOf(s, n).Some?
    ensures i < |s| && s[i].name == n && TypeOf(s, n) == Some(s[i].ty)
  {
    if s[0].name == n {
      i := 0;
    } else {
      var k := ColumnOf(s[1..], n);
      i := k + 1;
    }
  }

  lemma ParsedHasType(tv: TypedValue, ty: PType)
    requires ToJavaValue(tv, ty).Ok? && ToJavaValue(tv, ty).value.Some?
    ensures HasType(ty, ToJavaValue(tv, ty).value.value)
  {
  }

  lemma {:induction false} TypeOfColumn(s: Schema, i: nat)
    requires DistinctNames(s) && i < |s|
    ensures TypeOf(s, s[i].name) == Some(s[i].ty)
  {
    if i > 0 {
      TypeOfColumn(s[1..], i - 1);
    }
  }

  /** A record built for the columns `s[..k]` conforms to the whole schema. */
  lemma {:induction false} ToRecordConforms(s: Schema, k: nat, row: RowIn)
    requires DistinctNames(s) && k <= |s|
    requires ToRecord(s[..k], row).Ok?
    ensures Conforms(s, ToRecord(s[..k], row).value)
  {
    if k > 0 {
      assert s[..k][..k - 1] == s[..k - 1];
      ToRecordConforms(s, k - 1, row);
      TypeOfColumn(s, k - 1);
    }
  }

  lemma {:induction false} ToRecordsConform(s: Schema, rows: seq<RowIn>)
    requires DistinctNames(s)
    requires ToRecords(s, rows).Ok?
    ensures forall i :: 0 <= i < |rows| ==> Conforms(s, ToRecords(s, rows).value[i])
  {
    if rows != [] {
      ToRecordsConform(s, rows[..|rows| - 1]);
      assert s[..|s|] == s;
      ToRecordConforms(s, |s|, rows[|rows| - 1]);
    }
  }
}
