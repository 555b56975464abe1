/**
 Generated op-logs (`gen.go`, `state.go`) and an independent reading of them: a replay over the
 logged ops alone, in which a delete compares numbers by value. An op is meaningful when
 the state it meets gives it something to do.
 */
module GenLog {
  import opened Wrappers
  import opened Text
  import opened Seqs
  import opened Values
  import opened Numerals

  datatype GenField = GenField(id: int, name: string, ty: string, required: bool)

  /** A value with its tag; `isNull` is a present null. */
  datatype TypedVal = TypedVal(tag: string, scalar: string, isNull: bool)

  datatype GenRow = GenRow(rowKey: string, vals: map<string, TypedVal>)

  datatype Op =
    | AppendOp(rows: seq<GenRow>)
    | DeleteOp(term: string, value: TypedVal)
    | ObserveOp(at: string, bind: string)
    | PromoteOp(fieldId: int, to: string)

  datatype OpLog = OpLog(
    version: nat,
    schema: seq<GenField>,
    ops: seq<Op>,
    finalRowKeys: seq<string>,
    finalTypes: map<string, string>)

  /** The table as the log alone determines it. `keys` and `binds` are all names used so far. */
  datatype Replayed = Replayed(schema: seq<GenField>, live: seq<GenRow>, keys: set<string>, binds: set<string>)

  function LegalTargets(ty: string): seq<string> {
    if ty == "int" then ["long"] else if ty == "float" then ["double"] else []
  }

  function FieldIndex(schema: seq<GenField>, id: int): (r: Option<nat>)
    ensures r.Some? ==> r.value < |schema| && schema[r.value].id == id
    ensures r.None? ==> forall i :: 0 <= i < |schema| ==> schema[i].id != id
  {
    if schema == [] then None
    else if schema[0].id == id then Some(0)
    else
      var rest := FieldIndex(schema[1..], id);
      assert rest.None? ==> forall i :: 1 <= i < |schema| ==> schema[i] == schema[1..][i - 1];
      if rest.Some? then Some(rest.value + 1) else None
  }

  function TypeNamed(schema: seq<GenField>, name: string): string {
    if schema == [] then "" else if schema[0].name == name then schema[0].ty else TypeNamed(schema[1..], name)
  }

  // ----- delete by number

  predicate IsIntegral(ty: string) {
    ty == "int" || ty == "long"
  }

  predicate IsFloating(ty: string) {
    ty == "float" || ty == "double"
  }

  /** Two scalars of one column denote the same value: numbers compare as numbers. */
  predicate SameValue(ty: string, a: string, b: string) {
    if IsIntegral(ty) then ParseInt(a).Some? && ParseInt(a) == ParseInt(b)
    else if IsFloating(ty) then
      ParseNumeral(a).Some? && ParseNumeral(b).Some? && CompareNumeral(ParseNumeral(a).value, ParseNumeral(b).value) == 0
    else a == b
  }

  /** A number is in its shortest form. */
  predicate IsCanonical(ty: string, s: string) {
    && (IsIntegral(ty) ==> ParseInt(s).Some? && s == Itoa(ParseInt(s).value))
    && (IsFloating(ty) ==> ShortestText(s))
  }

  /** Canonical texts denote one value exactly when they are one text. */
  lemma CanonicalIsValue(ty: string, a: string, b: string)
    requires IsCanonical(ty, a) && IsCanonical(ty, b)
    ensures SameValue(ty, a, b) <==> a == b
  {
    if IsFloating(ty) {
      ShortestUnique(a, b);
    }
  }

  predicate Hit(schema: seq<GenField>, term: string, value: TypedVal, r: GenRow) {
    && term in r.vals && !r.vals[term].isNull
    && SameValue(TypeNamed(schema, term), r.vals[term].scalar, value.scalar)
  }

  function Missed(schema: seq<GenField>, term: string, value: TypedVal): GenRow -> bool {
    r => !Hit(schema, term, value, r)
  }

  function RowKeyOf(): GenRow -> string {
    (r: GenRow) => r.rowKey
  }

  function Keys(rows: seq<GenRow>): seq<string> {
    Map(RowKeyOf(), rows)
  }

  function Retyped(schema: seq<GenField>, id: int, to: string): seq<GenField> {
    match FieldIndex(schema, id)
    case None => schema
    case Some(i) => schema[i := schema[i].(ty := to)]
  }

  // ----- the replay

  function ReplayStep(g: Replayed, op: Op): Replayed {
    match op
    case AppendOp(rows) => g.(live := g.live + rows, keys := g.keys + set k | k in Keys(rows))
    case DeleteOp(term, value) => g.(live := Filter(Missed(g.schema, term, value), g.live))
    case ObserveOp(_, bind) => if bind == "" then g else g.(binds := g.binds + {bind})
    case PromoteOp(id, to) => g.(schema := Retyped(g.schema, id, to))
  }

  function ReplayOps(schema: seq<GenField>, ops: seq<Op>): Replayed {
    if ops == [] then Replayed(schema, [], {}, {})
    else ReplayStep(ReplayOps(schema, ops[..|ops| - 1]), ops[|ops| - 1])
  }

  lemma ReplaySnoc(schema: seq<GenField>, ops: seq<Op>, op: Op)
    ensures ReplayOps(schema, ops + [op]) == ReplayStep(ReplayOps(schema, ops), op)
  {
    assert (ops + [op])[..|ops|] == ops;
  }

  // ----- meaning

  predicate HasPrefix(s: string, prefix: string) {
    |prefix| <= |s| && s[..|prefix|] == prefix
  }

  lemma PrefixMeans(s: string, prefix: string)
    ensures HasPrefix(s, prefix) <==> exists rest :: s == prefix + rest
  {
    if HasPrefix(s, prefix) {
      assert s == prefix + s[|prefix|..];
    }
  }

  function TagOf(ty: string): string {
    if ty in {"int", "long", "float", "double", "boolean", "uuid"} then ty
    else if HasPrefix(ty, "fixed[") then "fixed"
    else if HasPrefix(ty, "decimal(") then "decimal"
    else "string"
  }

  predicate IsHex(c: char) {
    '0' <= c <= '9' || 'a' <= c <= 'f'
  }

  lemma SixteenDigits(c: char)
    ensures IsHex(c) <==> c in "0123456789abcdef"
  {
    if '0' <= c <= '9' {
      assert "0123456789abcdef"[c as int - '0' as int] == c;
    } else if 'a' <= c <= 'f' {
      assert "0123456789abcdef"[c as int - 'a' as int + 10] == c;
    }
  }

  predicate AllHex(s: string) {
    forall i :: 0 <= i < |s| ==> IsHex(s[i])
  }

  /** 8-4-4-4-12 hexadecimal digits. */
  predicate IsUuidText(s: string) {
    && |s| == 36
    && forall i :: 0 <= i < 36 ==> if i == 8 || i == 13 || i == 18 || i == 23 then s[i] == '-' else IsHex(s[i])
  }

  /** The text is one the column type can hold; numbers are in their shortest form. */
  predicate ScalarFits(ty: string, s: string) {
    && IsCanonical(ty, s)
    && (IsIntegral(ty) ==> if ty == "int" then Fits32(ParseInt(s).value) else Fits64(ParseInt(s).value))
    && (ty == "decimal(9,2)" ==> ParseNumeral(s).Some? && FitsDecimal(ParseNumeral(s).value, 9, 2))
    && (ty == "boolean" ==> s == "true" || s == "false")
    && (ty == "fixed[4]" ==> |s| == 8 && AllHex(s))
    && (ty == "uuid" ==> IsUuidText(s))
  }

  predicate ValueFits(ty: string, v: TypedVal) {
    !v.isNull && v.tag == TagOf(ty) && ScalarFits(ty, v.scalar)
  }

  predicate Declares(schema: seq<GenField>, name: string) {
    exists i :: 0 <= i < |schema| && schema[i].name == name
  }

  predicate RowFits(schema: seq<GenField>, r: GenRow) {
    && (forall i :: 0 <= i < |schema| && schema[i].required ==> schema[i].name in r.vals)
    && (forall n :: n in r.vals ==> Declares(schema, n) && ValueFits(TypeNamed(schema, n), r.vals[n]))
  }

  predicate SomeHit(schema: seq<GenField>, term: string, value: TypedVal, rows: seq<GenRow>) {
    exists i :: 0 <= i < |rows| && Hit(schema, term, value, rows[i])
  }

  predicate Meaningful(g: Replayed, op: Op) {
    match op
    case AppendOp(rows) =>
      && rows != [] && Distinct(Keys(rows))
      && forall i :: 0 <= i < |rows| ==> rows[i].rowKey !in g.keys && RowFits(g.schema, rows[i])
    case DeleteOp(term, value) =>
      && !value.isNull && value.tag == TagOf(TypeNamed(g.schema, term)) && Declares(g.schema, term)
      && SomeHit(g.schema, term, value, g.live)
    case ObserveOp(at, bind) =>
      && (at == "latest" || at in g.binds)
      && (bind != "" ==> bind !in g.binds && bind != "latest")
    case PromoteOp(id, to) =>
      FieldIndex(g.schema, id).Some? && to in LegalTargets(g.schema[FieldIndex(g.schema, id).value].ty)
  }

  /** Every op is meaningful where it stands. */
  ghost predicate MeaningfulLog(schema: seq<GenField>, ops: seq<Op>) {
    forall i :: 0 <= i < |ops| ==> Meaningful(ReplayOps(schema, ops[..i]), ops[i])
  }

  lemma ReplayLast(schema: seq<GenField>, ops: seq<Op>)
    ensures ReplayOps(schema, ops) ==
              if ops == [] then Replayed(schema, [], {}, {})
              else ReplayStep(ReplayOps(schema, ops[..|ops| - 1]), ops[|ops| - 1])
  {
    hide ReplayStep;
  }

  lemma MeaningfulSnoc(schema: seq<GenField>, ops: seq<Op>, op: Op)
    requires MeaningfulLog(schema, ops) && Meaningful(ReplayOps(schema, ops), op)
    ensures MeaningfulLog(schema, ops + [op])
  {
    var all := ops + [op];
    forall i | 0 <= i < |all| ensures Meaningful(ReplayOps(schema, all[..i]), all[i]) {
      assert i <= |ops| && all[..i] == ops[..i];
      if i < |ops| {
        assert all[i] == ops[i];
      } else {
        assert ops[..i] == ops;
      }
    }
  }

  lemma MeaningfulFront(schema: seq<GenField>, ops: seq<Op>)
    requires MeaningfulLog(schema, ops) && ops != []
    ensures MeaningfulLog(schema, ops[..|ops| - 1])
    ensures Meaningful(ReplayOps(schema, ops[..|ops| - 1]), ops[|ops| - 1])
  {
    hide Meaningful, ReplayOps;
    var front := ops[..|ops| - 1];
    forall i | 0 <= i < |front| ensures Meaningful(ReplayOps(schema, front[..i]), front[i]) {
      assert front[i] == ops[i] && front[..i] == ops[..i];
    }
  }

  predicate SameCells(a: GenRow, b: GenRow) {
    && a.rowKey == b.rowKey && a.vals.Keys == b.vals.Keys
    && forall n :: n in a.vals ==> a.vals[n].scalar == b.vals[n].scalar && a.vals[n].isNull == b.vals[n].isNull
  }

  function KeySet(keys: seq<string>): set<string> {
    set k | k in keys
  }

  predicate DistinctFields(schema: seq<GenField>) {
    forall i, j :: 0 <= i < j < |schema| ==> schema[i].name != schema[j].name
  }

  lemma {:induction false} TypeNamedAt(schema: seq<GenField>, i: nat)
    requires DistinctFields(schema) && i < |schema|
    ensures TypeNamed(schema, schema[i].name) == schema[i].ty
  {
    if i > 0 {
      TypeNamedAt(schema[1..], i - 1);
    }
  }

  function RetagCell(r: GenRow, name: string, to: string): GenRow {
    if name in r.vals && !r.vals[name].isNull then r.(vals := r.vals[name := r.vals[name].(tag := to)]) else r
  }

  // ----- promotions

  function Promotable(schema: seq<GenField>): nat {
    if schema == [] then 0
    else (if LegalTargets(schema[0].ty) != [] then 1 else 0) + Promotable(schema[1..])
  }

  function Promotes(ops: seq<Op>): nat {
    if ops == [] then 0
    else Promotes(ops[..|ops| - 1]) + if ops[|ops| - 1].PromoteOp? then 1 else 0
  }

  lemma {:induction false} PromotableUpdate(schema: seq<GenField>, i: nat, to: string)
    requires i < |schema| && to in LegalTargets(schema[i].ty)
    ensures Promotable(schema[i := schema[i].(ty := to)]) == Promotable(schema) - 1
  {
    var next := schema[i := schema[i].(ty := to)];
    assert LegalTargets(to) == [];
    if i == 0 {
      assert next[1..] == schema[1..];
    } else {
      PromotableUpdate(schema[1..], i - 1, to);
      assert next[1..] == schema[1..][i - 1 := schema[i].(ty := to)];
    }
  }

  /** Every promotion uses up one column for good: there are never more than promotable columns. */
  lemma {:induction false} PromotionAccounting(schema: seq<GenField>, ops: seq<Op>)
    requires MeaningfulLog(schema, ops)
    ensures Promotes(ops) + Promotable(ReplayOps(schema, ops).schema) == Promotable(schema)
  {
    hide MeaningfulLog, ReplayOps;
    ReplayLast(schema, ops);
    if ops != [] {
      hide Promotable;
      var front, op := ops[..|ops| - 1], ops[|ops| - 1];
      MeaningfulFront(schema, ops);
      PromotionAccounting(schema, front);
      var g := ReplayOps(schema, front);
      if op.PromoteOp? {
        PromotableUpdate(g.schema, FieldIndex(g.schema, op.fieldId).value, op.to);
      }
    }
  }

  lemma RetypedFields(schema: seq<GenField>, id: int, to: string)
    ensures |Retyped(schema, id, to)| == |schema|
    ensures forall i :: 0 <= i < |schema| ==>
              && Retyped(schema, id, to)[i].id == schema[i].id
              && Retyped(schema, id, to)[i].name == schema[i].name
              && Retyped(schema, id, to)[i].required == schema[i].required
  {
  }

  lemma FieldIndexById(a: seq<GenField>, b: seq<GenField>, id: int)
    requires |a| == |b| && forall i :: 0 <= i < |a| ==> a[i].id == b[i].id
    ensures FieldIndex(a, id) == FieldIndex(b, id)
  {
    if a != [] && a[0].id != id {
      assert forall i :: 0 <= i < |a[1..]| ==> a[1..][i] == a[i + 1] && b[1..][i] == b[i + 1];
      FieldIndexById(a[1..], b[1..], id);
    }
  }

  /** The column of this id, if any, has no wider type left. */
  predicate Exhausted(schema: seq<GenField>, id: int) {
    FieldIndex(schema, id).Some? ==> LegalTargets(schema[FieldIndex(schema, id).value].ty) == []
  }

  lemma PromoteExhausts(g: Replayed, id: int, to: string)
    requires Meaningful(g, PromoteOp(id, to))
    ensures Exhausted(ReplayStep(g, PromoteOp(id, to)).schema, id)
  {
    RetypedFields(g.schema, id, to);
    FieldIndexById(g.schema, Retyped(g.schema, id, to), id);
  }

  /** Nothing an op does gives a column a wider type to go to. */
  lemma StaysExhausted(g: Replayed, op: Op, id: int)
    requires Meaningful(g, op) && Exhausted(g.schema, id)
    ensures Exhausted(ReplayStep(g, op).schema, id)
  {
    if op.PromoteOp? {
      RetypedFields(g.schema, op.fieldId, op.to);
      FieldIndexById(g.schema, Retyped(g.schema, op.fieldId, op.to), id);
    }
  }

  lemma {:induction false} ExhaustedAfter(schema: seq<GenField>, ops: seq<Op>, i: nat, j: nat)
    requires MeaningfulLog(schema, ops) && i < j <= |ops| && ops[i].PromoteOp?
    ensures Exhausted(ReplayOps(schema, ops[..j]).schema, ops[i].fieldId)
  {
    hide Exhausted, Meaningful, ReplayStep;
    var g := ReplayOps(schema, ops[..j - 1]);
    assert ops[..j] == ops[..j - 1] + [ops[j - 1]];
    ReplaySnoc(schema, ops[..j - 1], ops[j - 1]);
    assert Meaningful(g, ops[j - 1]);
    if i == j - 1 {
      PromoteExhausts(g, ops[i].fieldId, ops[i].to);
    } else {
      ExhaustedAfter(schema, ops, i, j - 1);
      StaysExhausted(g, ops[j - 1], ops[i].fieldId);
    }
  }

  /** No column of a meaningful log is promoted twice. */
  lemma PromotedOnce(schema: seq<GenField>, ops: seq<Op>, i: nat, j: nat)
    requires MeaningfulLog(schema, ops) && i < j < |ops| && ops[i].PromoteOp? && ops[j].PromoteOp?
    ensures ops[i].fieldId != ops[j].fieldId
  {
    ExhaustedAfter(schema, ops, i, j);
    assert Meaningful(ReplayOps(schema, ops[..j]), ops[j]);
  }

  /** The type of every column at the end, by name; a repeated name keeps its last field. */
  function TypesOf(schema: seq<GenField>): map<string, string> {
    if schema == [] then map[]
    else TypesOf(schema[..|schema| - 1])[schema[|schema| - 1].name := schema[|schema| - 1].ty]
  }

  /** Exactly the columns are listed, each under the type of its last field. */
  lemma {:induction false} TypesListed(schema: seq<GenField>, name: string)
    ensures name in TypesOf(schema) <==> Declares(schema, name)
    ensures forall i :: 0 <= i < |schema| && schema[i].name == name && !Declares(schema[i + 1..], name) ==>
              TypesOf(schema)[name] == schema[i].ty
  {
    if schema != [] {
      var front := schema[..|schema| - 1];
      TypesListed(front, name);
      assert forall i :: 0 <= i < |front| ==> front[i] == schema[i];
      forall i | 0 <= i < |schema| && schema[i].name == name && !Declares(schema[i + 1..], name)
        ensures name in TypesOf(schema) && TypesOf(schema)[name] == schema[i].ty
      {
        if i < |front| {
          var rest := schema[i + 1..];
          assert rest[|rest| - 1] == schema[|schema| - 1];
          assert forall j :: 0 <= j < |front[i + 1..]| ==> front[i + 1..][j] == rest[j];
        }
      }
    }
  }

  /** Row keys of a meaningful log are distinct across all its appends, hence among its live rows. */
  lemma {:induction false} LiveKeysDistinct(schema: seq<GenField>, ops: seq<Op>)
    requires MeaningfulLog(schema, ops)
    ensures var g := ReplayOps(schema, ops);
            Distinct(Keys(g.live)) && forall i :: 0 <= i < |g.live| ==> g.live[i].rowKey in g.keys
  {
    hide MeaningfulLog, ReplayOps, Meaningful, Filter, Missed;
    ReplayLast(schema, ops);
    if ops != [] {
      hide Keys;
      var front, op := ops[..|ops| - 1], ops[|ops| - 1];
      MeaningfulFront(schema, ops);
      LiveKeysDistinct(schema, front);
      var g := ReplayOps(schema, front);
      match op {
        case AppendOp(rows) => AppendKeepsDistinct(g, rows);
        case DeleteOp(term, value) => FilterKeepsDistinct(Missed(g.schema, term, value), g.live, g.keys);
        case _ =>
      }
    }
  }

  lemma AppendKeepsDistinct(g: Replayed, rows: seq<GenRow>)
    requires Distinct(Keys(g.live)) && forall i :: 0 <= i < |g.live| ==> g.live[i].rowKey in g.keys
    requires Meaningful(g, AppendOp(rows))
    ensures Distinct(Keys(g.live + rows))
    ensures forall i :: 0 <= i < |g.live + rows| ==> (g.live + rows)[i].rowKey in g.keys + set k | k in Keys(rows)
  {
    MapAppend(RowKeyOf(), g.live, rows);
    forall i | 0 <= i < |rows| ensures rows[i].rowKey in Keys(rows) {
      assert Keys(rows)[i] == rows[i].rowKey;
    }
  }

  lemma {:induction false} ConsDistinct(r: GenRow, rest: seq<GenRow>)
    requires Distinct(Keys(rest)) && forall j :: 0 <= j < |rest| ==> rest[j].rowKey != r.rowKey
    ensures Distinct(Keys([r] + rest))
  {
    var all := [r] + rest;
    forall i, j | 0 <= i < j < |all| ensures Keys(all)[i] != Keys(all)[j] {
      assert all[j] == rest[j - 1];
      if i > 0 {
        assert all[i] == rest[i - 1];
        assert Keys(rest)[i - 1] != Keys(rest)[j - 1];
      }
    }
  }

  lemma {:induction false} FilterKeepsDistinct(p: GenRow -> bool, rows: seq<GenRow>, keys: set<string>)
    requires Distinct(Keys(rows)) && forall i :: 0 <= i < |rows| ==> rows[i].rowKey in keys
    ensures Distinct(Keys(Filter(p, rows)))
    ensures forall i :: 0 <= i < |Filter(p, rows)| ==> Filter(p, rows)[i].rowKey in keys
  {
    forall i | 0 <= i < |Filter(p, rows)| ensures Filter(p, rows)[i].rowKey in keys {
      FilterIn(p, rows, Filter(p, rows)[i]);
    }
    if rows != [] {
      assert forall i :: 0 <= i < |rows[1..]| ==> rows[1..][i] == rows[i + 1];
      assert forall i :: 0 <= i < |rows[1..]| ==> Keys(rows[1..])[i] == Keys(rows)[i + 1];
      FilterKeepsDistinct(p, rows[1..], keys);
      if p(rows[0]) {
        var rest := Filter(p, rows[1..]);
        forall j | 0 <= j < |rest| ensures rest[j].rowKey != rows[0].rowKey {
          FilterIn(p, rows[1..], rest[j]);
          var i :| 0 <= i < |rows[1..]| && rows[1..][i] == rest[j];
          assert Keys(rows)[0] != Keys(rows)[i + 1];
        }
        ConsDistinct(rows[0], rest);
      }
    }
  }

  // ----- the log as it is read at the end

  /** Appends share their rows' cells with the state, so a promotion re-tags what is live in the log too. */
  function WriteThrough(ops: seq<Op>, live: set<string>, name: string, to: string): (r: seq<Op>)
    ensures |r| == |ops|
    ensures forall i :: 0 <= i < |ops| ==> r[i] == WrittenOp(ops[i], live, name, to)
  {
    Map((op: Op) => WrittenOp(op, live, name, to), ops)
  }

  function WrittenOp(op: Op, live: set<string>, name: string, to: string): Op {
    if op.AppendOp? then AppendOp(Map((r: GenRow) => WrittenRow(r, live, name, to), op.rows)) else op
  }

  function WrittenRow(r: GenRow, live: set<string>, name: string, to: string): GenRow {
    if r.rowKey in live then RetagCell(r, name, to) else r
  }

  function NameOf(schema: seq<GenField>, id: int): string {
    if FieldIndex(schema, id).Some? then schema[FieldIndex(schema, id).value].name else ""
  }

  /** The drawn ops as the finished log shows them. */
  function Emitted(start: seq<GenField>, ops: seq<Op>): (r: seq<Op>)
    ensures |r| == |ops|
  {
    if ops == [] then []
    else
      var front, op := ops[..|ops| - 1], ops[|ops| - 1];
      var g := ReplayOps(start, front);
      (if op.PromoteOp? then WriteThrough(Emitted(start, front), KeySet(Keys(g.live)), NameOf(g.schema, op.fieldId), op.to)
       else Emitted(start, front)) + [op]
  }

  lemma EmittedSnoc(start: seq<GenField>, ops: seq<Op>, op: Op)
    ensures var g := ReplayOps(start, ops);
            Emitted(start, ops + [op]) ==
              (if op.PromoteOp? then WriteThrough(Emitted(start, ops), KeySet(Keys(g.live)), NameOf(g.schema, op.fieldId), op.to)
               else Emitted(start, ops)) + [op]
  {
    assert (ops + [op])[..|ops|] == ops;
  }

  /** Without a promotion the finished log is the log as drawn. */
  lemma {:induction false} NothingWritten(start: seq<GenField>, ops: seq<Op>)
    requires Promotes(ops) == 0
    ensures Emitted(start, ops) == ops
  {
    if ops != [] {
      NothingWritten(start, ops[..|ops| - 1]);
    }
  }

  predicate SameRows(a: seq<GenRow>, b: seq<GenRow>) {
    |a| == |b| && forall i :: 0 <= i < |a| ==> SameCells(a[i], b[i])
  }

  /** The ops differ in tags of logged rows at most. */
  predicate SameButTags(a: Op, b: Op) {
    if a.AppendOp? then b.AppendOp? && SameRows(a.rows, b.rows) else a == b
  }

  predicate SameButTagsAll(a: seq<Op>, b: seq<Op>) {
    |a| == |b| && forall i :: 0 <= i < |a| ==> SameButTags(a[i], b[i])
  }

  lemma WrittenSameButTags(op: Op, base: Op, live: set<string>, name: string, to: string)
    requires SameButTags(op, base)
    ensures SameButTags(WrittenOp(op, live, name, to), base)
  {
    if op.AppendOp? {
      forall i | 0 <= i < |op.rows| ensures SameCells(WrittenRow(op.rows[i], live, name, to), base.rows[i]) {
        assert SameCells(op.rows[i], base.rows[i]);
      }
    }
  }

  lemma {:induction false} EmittedSameButTags(start: seq<GenField>, ops: seq<Op>)
    ensures SameButTagsAll(Emitted(start, ops), ops)
  {
    hide SameButTags, WrittenOp, ReplayOps, NameOf, KeySet, Keys, Emitted;
    if ops != [] {
      var front, op := ops[..|ops| - 1], ops[|ops| - 1];
      EmittedSameButTags(start, front);
      SameOp(op);
      EmittedLast(start, ops);
      forall i | 0 <= i < |front| ensures SameButTags(Emitted(start, ops)[i], ops[i]) {
        EmittedStep(start, ops, i);
        if op.PromoteOp? {
          var g := ReplayOps(start, front);
          WrittenSameButTags(Emitted(start, front)[i], front[i], KeySet(Keys(g.live)), NameOf(g.schema, op.fieldId), op.to);
        }
      }
    }
  }

  lemma EmittedLast(start: seq<GenField>, ops: seq<Op>)
    requires ops != []
    ensures Emitted(start, ops)[|ops| - 1] == ops[|ops| - 1]
  {
    hide ReplayOps, WrittenOp, KeySet, Keys, NameOf;
  }

  lemma SameOp(op: Op)
    ensures SameButTags(op, op)
  {
  }

  lemma {:induction false} FilterSameRows(schema: seq<GenField>, term: string, value: TypedVal, a: seq<GenRow>, b: seq<GenRow>)
    requires SameRows(a, b)
    ensures SameRows(Filter(Missed(schema, term, value), a), Filter(Missed(schema, term, value), b))
  {
    if a != [] {
      assert forall i :: 0 <= i < |a[1..]| ==> a[1..][i] == a[i + 1] && b[1..][i] == b[i + 1];
      FilterSameRows(schema, term, value, a[1..], b[1..]);
      assert SameCells(a[0], b[0]);
    }
  }

  lemma SameKeys(a: seq<GenRow>, b: seq<GenRow>)
    requires SameRows(a, b)
    ensures Keys(a) == Keys(b)
  {
  }

  /** The replay does not look at tags: the finished log replays to the rows and columns of the drawn one. */
  lemma {:induction false} TagsDoNotReplay(start: seq<GenField>, a: seq<Op>, b: seq<Op>)
    requires SameButTagsAll(a, b)
    ensures var x, y := ReplayOps(start, a), ReplayOps(start, b);
            x.schema == y.schema && x.binds == y.binds && x.keys == y.keys && SameRows(x.live, y.live)
  {
    if a != [] {
      var front, back := a[..|a| - 1], b[..|b| - 1];
      TagsDoNotReplay(start, front, back);
      var x, y, op, oq := ReplayOps(start, front), ReplayOps(start, back), a[|a| - 1], b[|b| - 1];
      assert SameButTags(op, oq);
      match op {
        case AppendOp(rows) => SameKeys(rows, oq.rows);
        case DeleteOp(term, value) => FilterSameRows(x.schema, term, value, x.live, y.live);
        case _ =>
      }
    }
  }

  // ----- when a logged cell keeps its tag

  /** A promotion of column `n` after op `i`, while the row of this key is live. */
  ghost predicate PromotedWhileLive(start: seq<GenField>, ops: seq<Op>, i: nat, key: string, n: string) {
    exists k :: i < k < |ops| && PromotesLive(start, ops, k, key, n)
  }

  ghost predicate PromotesLive(start: seq<GenField>, ops: seq<Op>, k: nat, key: string, n: string)
    requires k < |ops|
  {
    var g := ReplayOps(start, ops[..k]);
    ops[k].PromoteOp? && NameOf(g.schema, ops[k].fieldId) == n && key in KeySet(Keys(g.live))
  }

  /** A column that can still be promoted has never been. */
  lemma {:induction false} PromotableIsOriginal(start: seq<GenField>, ops: seq<Op>, i: nat, n: string)
    requires MeaningfulLog(start, ops) && DistinctFields(start) && i <= |ops|
    requires LegalTargets(TypeNamed(ReplayOps(start, ops).schema, n)) != []
    ensures TypeNamed(ReplayOps(start, ops[..i]).schema, n) == TypeNamed(ReplayOps(start, ops).schema, n)
    decreases |ops|
  {
    hide MeaningfulLog, DistinctFields, ReplayOps, TypeNamed, LegalTargets;
    if i == |ops| {
      assert ops[..i] == ops;
    } else {
      var front, op := ops[..|ops| - 1], ops[|ops| - 1];
      MeaningfulFront(start, ops);
      NamesStay(start, front);
      assert ops == front + [op];
      ReplaySnoc(start, front, op);
      StepKeepsPromotable(ReplayOps(start, front), op, n);
      PromotableIsOriginal(start, front, i, n);
      assert front[..i] == ops[..i];
    }
  }

  lemma StepKeepsPromotable(g: Replayed, op: Op, n: string)
    requires Meaningful(g, op) && DistinctFields(g.schema)
    requires LegalTargets(TypeNamed(ReplayStep(g, op).schema, n)) != []
    ensures TypeNamed(ReplayStep(g, op).schema, n) == TypeNamed(g.schema, n)
  {
    if op.PromoteOp? {
      RetypedName(g.schema, op.fieldId, op.to, n);
    }
  }

  lemma RetypedName(schema: seq<GenField>, id: int, to: string, n: string)
    requires DistinctFields(schema) && FieldIndex(schema, id).Some?
    ensures TypeNamed(Retyped(schema, id, to), n) == if NameOf(schema, id) == n then to else TypeNamed(schema, n)
  {
    RetypedAt(schema, FieldIndex(schema, id).value, to, n);
  }

  lemma {:induction false} RetypedAt(schema: seq<GenField>, i: nat, to: string, n: string)
    requires DistinctFields(schema) && i < |schema|
    ensures TypeNamed(schema[i := schema[i].(ty := to)], n) == if schema[i].name == n then to else TypeNamed(schema, n)
  {
    var next := schema[i := schema[i].(ty := to)];
    if i == 0 {
      assert next[1..] == schema[1..];
    } else {
      assert next[1..] == schema[1..][i - 1 := schema[i].(ty := to)];
      RetypedAt(schema[1..], i - 1, to, n);
      assert schema[0].name != schema[i].name;
    }
  }

  lemma {:induction false} NamesStay(start: seq<GenField>, ops: seq<Op>)
    requires DistinctFields(start)
    ensures DistinctFields(ReplayOps(start, ops).schema)
  {
    if ops != [] {
      NamesStay(start, ops[..|ops| - 1]);
    }
  }

  /** The cell `n` of row `j` of the append at `i`. */
  ghost predicate LogsCell(ops: seq<Op>, i: nat, j: nat, n: string) {
    i < |ops| && ops[i].AppendOp? && j < |ops[i].rows| && n in ops[i].rows[j].vals
  }

  lemma EmittedCell(start: seq<GenField>, ops: seq<Op>, i: nat, j: nat, n: string)
    requires LogsCell(ops, i, j, n)
    ensures LogsCell(Emitted(start, ops), i, j, n)
    ensures Emitted(start, ops)[i].rows[j].rowKey == ops[i].rows[j].rowKey
    ensures Emitted(start, ops)[i].rows[j].vals[n].isNull == ops[i].rows[j].vals[n].isNull
  {
    EmittedSameButTags(start, ops);
    assert SameButTags(Emitted(start, ops)[i], ops[i]);
    assert SameCells(Emitted(start, ops)[i].rows[j], ops[i].rows[j]);
  }

  /** One more op writes the cell exactly when it promotes the cell's column while its row is live. */
  lemma CellWritten(start: seq<GenField>, ops: seq<Op>, i: nat, j: nat, n: string)
    requires ops != [] && i < |ops| - 1 && LogsCell(ops, i, j, n) && !ops[i].rows[j].vals[n].isNull
    ensures LogsCell(Emitted(start, ops), i, j, n) && LogsCell(Emitted(start, ops[..|ops| - 1]), i, j, n)
    ensures Emitted(start, ops)[i].rows[j].vals[n].tag ==
              if PromotesLive(start, ops, |ops| - 1, ops[i].rows[j].rowKey, n) then ops[|ops| - 1].to
              else Emitted(start, ops[..|ops| - 1])[i].rows[j].vals[n].tag
  {
    hide Emitted, ReplayOps, WrittenOp, KeySet, Keys, NameOf;
    var front, op := ops[..|ops| - 1], ops[|ops| - 1];
    assert front[i] == ops[i];
    EmittedCell(start, ops, i, j, n);
    EmittedCell(start, front, i, j, n);
    EmittedStep(start, ops, i);
    if op.PromoteOp? {
      var g := ReplayOps(start, front);
      WrittenCell(Emitted(start, front)[i], KeySet(Keys(g.live)), NameOf(g.schema, op.fieldId), op.to, j, n);
    }
  }

  /** What the last op does to an earlier one. */
  lemma EmittedStep(start: seq<GenField>, ops: seq<Op>, i: nat)
    requires i < |ops| - 1
    ensures var front, op := ops[..|ops| - 1], ops[|ops| - 1];
            var g := ReplayOps(start, front);
            Emitted(start, ops)[i] ==
              if op.PromoteOp? then WrittenOp(Emitted(start, front)[i], KeySet(Keys(g.live)), NameOf(g.schema, op.fieldId), op.to)
              else Emitted(start, front)[i]
  {
    hide ReplayOps, WrittenOp, KeySet, Keys, NameOf;
  }

  lemma WrittenCell(op: Op, live: set<string>, name: string, to: string, j: nat, n: string)
    requires op.AppendOp? && j < |op.rows| && n in op.rows[j].vals && !op.rows[j].vals[n].isNull
    ensures var w := WrittenOp(op, live, name, to);
            && w.AppendOp? && j < |w.rows| && n in w.rows[j].vals
            && w.rows[j].vals[n].tag == if name == n && op.rows[j].rowKey in live then to else op.rows[j].vals[n].tag
  {
  }

  lemma AppendedTag(start: seq<GenField>, ops: seq<Op>, i: nat, j: nat, n: string)
    requires MeaningfulLog(start, ops) && LogsCell(ops, i, j, n)
    ensures !ops[i].rows[j].vals[n].isNull
    ensures ops[i].rows[j].vals[n].tag == TagOf(TypeNamed(ReplayOps(start, ops[..i]).schema, n))
  {
    assert Meaningful(ReplayOps(start, ops[..i]), ops[i]);
    assert RowFits(ReplayOps(start, ops[..i]).schema, ops[i].rows[j]);
  }

  /** A promotion never writes the tag a cell was appended with. */
  /** A legal target is not the tag its column's values carry. */
  lemma TargetDiffers(schema: seq<GenField>, id: int, to: string)
    requires DistinctFields(schema) && FieldIndex(schema, id).Some?
    requires to in LegalTargets(schema[FieldIndex(schema, id).value].ty)
    ensures LegalTargets(TypeNamed(schema, NameOf(schema, id))) != []
    ensures to != TagOf(TypeNamed(schema, NameOf(schema, id)))
  {
    TypeNamedAt(schema, FieldIndex(schema, id).value);
  }

  lemma WritesAnotherTag(start: seq<GenField>, ops: seq<Op>, i: nat, j: nat, n: string, k: nat)
    requires MeaningfulLog(start, ops) && DistinctFields(start) && LogsCell(ops, i, j, n)
    requires i < k < |ops| && PromotesLive(start, ops, k, ops[i].rows[j].rowKey, n)
    ensures ops[k].to != ops[i].rows[j].vals[n].tag
  {
    hide MeaningfulLog, ReplayOps, KeySet, Keys, DistinctFields, LegalTargets, NameOf, TypeNamed;
    var g := ReplayOps(start, ops[..k]);
    MeaningfulAt(start, ops, k);
    MeaningfulPrefix(start, ops, k);
    NamesStay(start, ops[..k]);
    TargetDiffers(g.schema, ops[k].fieldId, ops[k].to);
    PromotableIsOriginal(start, ops[..k], i, n);
    assert ops[..k][..i] == ops[..i];
    AppendedTag(start, ops, i, j, n);
  }

  lemma MeaningfulAt(schema: seq<GenField>, ops: seq<Op>, k: nat)
    requires MeaningfulLog(schema, ops) && k < |ops|
    ensures Meaningful(ReplayOps(schema, ops[..k]), ops[k])
  {
    hide Meaningful, ReplayOps;
  }

  lemma MeaningfulPrefix(schema: seq<GenField>, ops: seq<Op>, k: nat)
    requires MeaningfulLog(schema, ops) && k <= |ops|
    ensures MeaningfulLog(schema, ops[..k])
  {
    hide Meaningful, ReplayOps;
    forall i | 0 <= i < k ensures Meaningful(ReplayOps(schema, ops[..k][..i]), ops[..k][i]) {
      assert ops[..k][i] == ops[i] && ops[..k][..i] == ops[..i];
    }
  }

  /**
   A logged cell keeps the tag it was appended with exactly when its column is not promoted while its
   row is live.
   */
  lemma {:induction false} TagKeptExactly(start: seq<GenField>, ops: seq<Op>, i: nat, j: nat, n: string)
    requires MeaningfulLog(start, ops) && DistinctFields(start) && LogsCell(ops, i, j, n)
    ensures LogsCell(Emitted(start, ops), i, j, n)
    ensures Emitted(start, ops)[i].rows[j].vals[n].tag == ops[i].rows[j].vals[n].tag <==>
            !PromotedWhileLive(start, ops, i, ops[i].rows[j].rowKey, n)
    decreases |ops|
  {
    hide MeaningfulLog, PromotesLive, Emitted, ReplayOps, PromotedWhileLive;
    var front, last, key := ops[..|ops| - 1], |ops| - 1, ops[i].rows[j].rowKey;
    EmittedCell(start, ops, i, j, n);
    if i < last {
      assert front[i] == ops[i];
      AppendedTag(start, ops, i, j, n);
      MeaningfulFront(start, ops);
      TagKeptExactly(start, front, i, j, n);
      CellWritten(start, ops, i, j, n);
      LiveSnoc(start, ops, i, key, n);
      if PromotesLive(start, ops, last, key, n) {
        WritesAnotherTag(start, ops, i, j, n, last);
      }
    } else {
      LastCell(start, ops);
      NoLaterOp(start, ops, i, key, n);
    }
  }

  lemma LastCell(start: seq<GenField>, ops: seq<Op>)
    requires ops != []
    ensures Emitted(start, ops)[|ops| - 1] == ops[|ops| - 1]
  {
  }

  lemma NoLaterOp(start: seq<GenField>, ops: seq<Op>, i: nat, key: string, n: string)
    requires i + 1 == |ops|
    ensures !PromotedWhileLive(start, ops, i, key, n)
  {
  }

  lemma LiveSnoc(start: seq<GenField>, ops: seq<Op>, i: nat, key: string, n: string)
    requires i < |ops| - 1
    ensures PromotedWhileLive(start, ops, i, key, n) <==>
            PromotedWhileLive(start, ops[..|ops| - 1], i, key, n) || PromotesLive(start, ops, |ops| - 1, key, n)
  {
    hide PromotesLive;
    var front, last := ops[..|ops| - 1], |ops| - 1;
    forall k | i < k < last ensures PromotesLive(start, front, k, key, n) <==> PromotesLive(start, ops, k, key, n) {
      SamePrefix(start, ops, k, key, n);
    }
    if PromotedWhileLive(start, front, i, key, n) {
      var k :| i < k < last && PromotesLive(start, front, k, key, n);
      assert PromotesLive(start, ops, k, key, n);
    }
    if PromotedWhileLive(start, ops, i, key, n) {
      var k :| i < k < |ops| && PromotesLive(start, ops, k, key, n);
      assert k < last ==> PromotesLive(start, front, k, key, n);
    }
  }

  lemma SamePrefix(start: seq<GenField>, ops: seq<Op>, k: nat, key: string, n: string)
    requires ops != [] && k < |ops| - 1
    ensures PromotesLive(start, ops[..|ops| - 1], k, key, n) <==> PromotesLive(start, ops, k, key, n)
  {
    assert ops[..|ops| - 1][..k] == ops[..k] && ops[..|ops| - 1][k] == ops[k];
  }
}
