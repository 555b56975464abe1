/**
 A metamorphic campaign seed, end to end: generate a log, lower it to the runner's entries, run it
 on the merge-on-read table, and check the output against the generator's prediction.
 */
module EndToEnd {
  import opened Wrappers
  import opened Text
  import opened Seqs
  import opened Values
  import opened Predicates
  import opened Emit
  import opened Replay
  import opened ReplayLaws
  import opened GenLog
  import opened Draws
  import opened Generator
  import opened Compare
  import opened Documents
  import opened ReadDiff
  import opened Metamorphic
  import I = Interpret

  // ----- lowering: what the emitted YAML is parsed to

  /** The column type a seed schema's type word names. */
  function TypeWord(ty: string): PType {
    if ty == "long" then TLong
    else if ty == "int" then TInt
    else if ty == "float" then TFloat
    else if ty == "double" then TDouble
    else if ty == "boolean" then TBool
    else TString
  }

  function LowerVal(v: TypedVal): TypedValue {
    if v.isNull then Scalar("null", "null") else Scalar(v.tag, v.scalar)
  }

  /** A type is lowered to the one of its name. */
  lemma TypeWordNames(ty: string)
    requires ty in {"boolean", "int", "long", "float", "double", "string"}
    ensures TypeName(TypeWord(ty)) == ty
  {
  }

  /** A logged value means to the runner what it says: a null, or its text under its tag. */
  lemma LoweredValue(v: TypedVal, ty: PType)
    ensures v.isNull ==> ToJavaValue(LowerVal(v), ty) == Ok(None)
    ensures !v.isNull && v.tag != "null" ==>
              ToJavaValue(LowerVal(v), ty) ==
              if ParseValue(ty, v.scalar).None? then Err(BadScalar(v.scalar)) else Ok(ParseValue(ty, v.scalar))
  {
  }

  function LowerRow(): GenRow -> RowIn {
    (r: GenRow) => RowIn(Some(r.rowKey), map n | n in r.vals :: LowerVal(r.vals[n]))
  }

  function EqPred(term: string, value: TypedVal): Pred {
    Pred("eq", term, Some(LowerVal(value)), [], [], None)
  }

  function LowerOp(): Op -> Entry {
    (op: Op) => match op
      case AppendOp(rows) => Append(Map(LowerRow(), rows))
      case DeleteOp(term, value) => Delete("position", Some(EqPred(term, value)))
      case ObserveOp(at, bind) => Observe(Named(at), if bind == "" then None else Some(bind))
      case PromoteOp(id, to) => Evolve([Promotion(id, TypeWord(to))])
  }

  function LowerField(): GenField -> Field {
    (f: GenField) => Field(f.id, f.name, TypeWord(f.ty), f.required)
  }

  function LowerHeader(log: OpLog): Header {
    Header(log.version, Map(LowerField(), log.schema))
  }

  function LowerOps(ops: seq<Op>): seq<Entry> {
    Map(LowerOp(), ops)
  }

  // ----- the seed table

  const FIELDS: Schema := [Field(1, "id", TLong, true), Field(2, "val", TString, false)]

  function Table(): Schema {
    [Field(ROW_KEY_FIELD_ID, ROW_KEY, TString, false), Field(1, "id", TLong, true), Field(2, "val", TString, false)]
  }

  lemma SeedLowers(log: OpLog)
    requires log.schema == SEED_SCHEMA
    ensures LowerHeader(log) == Header(log.version, FIELDS) && BuildSchema(FIELDS) == Table()
    ensures DistinctNames(Table())
  {
    assert Map(LowerField(), log.schema) == FIELDS;
  }

  function IdOf(r: GenRow): int {
    if "id" in r.vals && ParseInt(r.vals["id"].scalar).Some? then ParseInt(r.vals["id"].scalar).value else 0
  }

  /** The record a fitting row becomes. */
  function RecordOf(): GenRow -> Record {
    (r: GenRow) =>
      var base: Record := map[ROW_KEY := StrV(r.rowKey), "id" := LongV(IdOf(r))];
      if "val" in r.vals then base["val" := StrV(r.vals["val"].scalar)] else base
  }

  predicate AllFit(rows: seq<GenRow>) {
    forall i :: 0 <= i < |rows| ==> RowFits(SEED_SCHEMA, rows[i])
  }

  lemma FitCells(r: GenRow)
    requires RowFits(SEED_SCHEMA, r)
    ensures "id" in r.vals && ValueFits("long", r.vals["id"])
    ensures "val" in r.vals ==> ValueFits("string", r.vals["val"])
  {
    assert SEED_SCHEMA[0].required && SEED_SCHEMA[0].name == "id";
    assert TypeNamed(SEED_SCHEMA, "id") == "long";
    assert TypeNamed(SEED_SCHEMA, "val") == "string";
  }

  lemma RowCells(r: GenRow)
    requires RowFits(SEED_SCHEMA, r)
    ensures var row := LowerRow()(r);
            && |Table()| == 3 && ColumnValue(Table()[0], row) == Ok(Some(StrV(r.rowKey)))
            && ColumnValue(Table()[1], row) == Ok(Some(LongV(IdOf(r))))
            && ColumnValue(Table()[2], row) == Ok(if "val" in r.vals then Some(StrV(r.vals["val"].scalar)) else None)
  {
    FitCells(r);
    var row := LowerRow()(r);
    LongCell(Table()[1], row, r.vals["id"]);
    if "val" in r.vals {
      StringCell(Table()[2], row, r.vals["val"]);
    }
    hide RowFits, ValueFits, ParseInt, ToJavaValue, LowerVal;
  }

  lemma LongCell(f: Field, row: RowIn, v: TypedVal)
    requires f.name != ROW_KEY && f.ty == TLong && ValueFits("long", v)
    requires f.name in row.vals && row.vals[f.name] == LowerVal(v)
    ensures ParseInt(v.scalar).Some? && ColumnValue(f, row) == Ok(Some(LongV(ParseInt(v.scalar).value)))
  {
    hide ParseInt;
  }

  lemma StringCell(f: Field, row: RowIn, v: TypedVal)
    requires f.name != ROW_KEY && f.ty == TString && ValueFits("string", v)
    requires f.name in row.vals && row.vals[f.name] == LowerVal(v)
    ensures ColumnValue(f, row) == Ok(Some(StrV(v.scalar)))
  {
  }

  lemma ToRecordSnoc(s: Schema, f: Field, row: RowIn, rec: Record, v: Option<Value>)
    requires ToRecord(s, row) == Ok(rec) && ColumnValue(f, row) == Ok(v)
    ensures ToRecord(s + [f], row) == Ok(if v.Some? then rec[f.name := v.value] else rec)
  {
    assert (s + [f])[..|s|] == s;
  }

  lemma RowLowers(r: GenRow)
    requires RowFits(SEED_SCHEMA, r)
    ensures ToRecord(Table(), LowerRow()(r)) == Ok(RecordOf()(r))
  {
    hide ToRecord, LowerRow, ColumnValue, RowFits, IdOf, Table, RecordOf;
    RowCells(r);
    TableColumns();
    ThreeColumns(Table()[0], Table()[1], Table()[2], LowerRow()(r), StrV(r.rowKey), LongV(IdOf(r)),
                 if "val" in r.vals then Some(StrV(r.vals["val"].scalar)) else None);
    RecordCells(r);
  }

  lemma TableColumns()
    ensures |Table()| == 3 && Table() == [] + [Table()[0]] + [Table()[1]] + [Table()[2]]
    ensures Table()[0].name == ROW_KEY && Table()[1].name == "id" && Table()[2].name == "val"
  {
  }

  lemma RecordCells(r: GenRow)
    ensures var two: Record := map[ROW_KEY := StrV(r.rowKey)]["id" := LongV(IdOf(r))];
            RecordOf()(r) == if "val" in r.vals then two["val" := StrV(r.vals["val"].scalar)] else two
  {
    hide IdOf;
  }

  lemma ThreeColumns(f: Field, g: Field, e: Field, row: RowIn, x: Value, y: Value, z: Option<Value>)
    requires ColumnValue(f, row) == Ok(Some(x)) && ColumnValue(g, row) == Ok(Some(y)) && ColumnValue(e, row) == Ok(z)
    ensures var two: Record := map[f.name := x][g.name := y];
            ToRecord([] + [f] + [g] + [e], row) == Ok(if z.Some? then two[e.name := z.value] else two)
  {
    assert ToRecord([], row) == Ok(map[]);
    hide ToRecord, ColumnValue;
    ToRecordSnoc([], f, row, map[], Some(x));
    ToRecordSnoc([] + [f], g, row, map[f.name := x], Some(y));
    ToRecordSnoc([] + [f] + [g], e, row, map[f.name := x][g.name := y], z);
  }

  lemma RecordComplete(r: GenRow)
    ensures RecordProblem(Table(), RecordOf()(r)) == None
  {
    var t, rec := Table(), RecordOf()(r);
    assert t[1..][1..][1..] == [];
    assert RecordProblem(t[1..][1..], rec) == None;
    assert RecordProblem(t[1..], rec) == None;
  }

  lemma ToRecordsSnoc(s: Schema, front: seq<RowIn>, last: RowIn, recs: seq<Record>, rec: Record)
    requires ToRecords(s, front) == Ok(recs) && ToRecord(s, last) == Ok(rec)
    ensures ToRecords(s, front + [last]) == Ok(recs + [rec])
  {
    assert (front + [last])[..|front|] == front;
  }

  lemma FitSplit(rows: seq<GenRow>)
    requires AllFit(rows) && rows != []
    ensures AllFit(rows[..|rows| - 1]) && RowFits(SEED_SCHEMA, rows[|rows| - 1])
    ensures rows == rows[..|rows| - 1] + [rows[|rows| - 1]]
  {
  }

  lemma {:induction false} RowsLower(rows: seq<GenRow>)
    requires AllFit(rows)
    ensures ToRecords(Table(), Map(LowerRow(), rows)) == Ok(Map(RecordOf(), rows))
  {
    if rows != [] {
      hide ToRecord, ToRecords, RowFits, AllFit, LowerRow, RecordOf, Table, Map;
      var front, last := rows[..|rows| - 1], rows[|rows| - 1];
      FitSplit(rows);
      RowsLower(front);
      RowLowers(last);
      ToRecordsSnoc(Table(), Map(LowerRow(), front), LowerRow()(last), Map(RecordOf(), front), RecordOf()(last));
      MapSnoc(LowerRow(), front, last);
      MapSnoc(RecordOf(), front, last);
    }
  }

  lemma RowsWritable(rows: seq<GenRow>)
    requires AllFit(rows)
    ensures WriteProblem(Table(), Map(RecordOf(), rows)) == None
  {
    forall r | r in Map(RecordOf(), rows) ensures RecordProblem(Table(), r) == None {
      var i :| 0 <= i < |rows| && Map(RecordOf(), rows)[i] == r;
      RecordComplete(rows[i]);
    }
    NoWriteProblem(Table(), Map(RecordOf(), rows));
  }

  // ----- a delete means the same on both sides

  predicate SeedTerm(term: string) {
    term == "id" || term == "val"
  }

  /** The value the matcher compares with. */
  function Want(term: string, value: TypedVal): Value {
    if term != "id" then StrV(value.scalar)
    else if ParseInt(value.scalar).Some? then LongV(ParseInt(value.scalar).value)
    else LongV(0)
  }

  lemma SeedTypes()
    ensures TypeNamed(SEED_SCHEMA, "id") == "long" && TypeNamed(SEED_SCHEMA, "val") == "string"
    ensures TypeOf(Table(), "id") == Some(TLong) && TypeOf(Table(), "val") == Some(TString)
    ensures forall term :: Declares(SEED_SCHEMA, term) ==> SeedTerm(term)
  {
  }

  /** The literal of a delete that hits a fitting row parses as that row's column does. */
  lemma HitParses(term: string, value: TypedVal, rows: seq<GenRow>)
    requires AllFit(rows) && SeedTerm(term) && SomeHit(SEED_SCHEMA, term, value, rows)
    ensures term == "id" ==> ParseInt(value.scalar).Some? && Fits64(ParseInt(value.scalar).value)
  {
    var i :| 0 <= i < |rows| && Hit(SEED_SCHEMA, term, value, rows[i]);
    FitCells(rows[i]);
    SeedTypes();
  }

  lemma LiteralLowers(term: string, value: TypedVal)
    requires SeedTerm(term) && !value.isNull && value.tag == TagOf(TypeNamed(SEED_SCHEMA, term))
    requires term == "id" ==> ParseInt(value.scalar).Some? && Fits64(ParseInt(value.scalar).value)
    ensures JavaTerm(Table(), term, Some(LowerVal(value))) == Ok(Want(term, value))
  {
    SeedTypes();
  }

  lemma DeleteLowers(term: string, value: TypedVal, rows: seq<GenRow>)
    requires AllFit(rows) && !value.isNull && value.tag == TagOf(TypeNamed(SEED_SCHEMA, term))
    requires SeedTerm(term) && SomeHit(SEED_SCHEMA, term, value, rows)
    ensures term == "id" ==> ParseInt(value.scalar).Some?
    ensures MatcherOf(EqPred(term, value), Table()) == Ok(MCmp(EQ, term, Want(term, value)))
  {
    hide JavaTerm, Want, SomeHit, AllFit, TypeNamed;
    HitParses(term, value, rows);
    LiteralLowers(term, value);
  }

  lemma HitIsMatch(term: string, value: TypedVal, r: GenRow)
    requires RowFits(SEED_SCHEMA, r) && SeedTerm(term)
    requires term == "id" ==> ParseInt(value.scalar).Some?
    ensures Matches(MCmp(EQ, term, Want(term, value)), RecordOf()(r)) <==> Hit(SEED_SCHEMA, term, value, r)
  {
    FitCells(r);
    SeedTypes();
    EqualMatches(term, Want(term, value), RecordOf()(r));
    hide TypeNamed, ParseInt, RowFits, Matches;
    if term == "id" {
      IdMatches(value, r);
    } else {
      ValMatches(value, r);
    }
  }

  lemma IdMatches(value: TypedVal, r: GenRow)
    requires "id" in r.vals && ValueFits("long", r.vals["id"]) && ParseInt(value.scalar).Some?
    ensures var rec := RecordOf()(r);
            "id" in rec && (Values.Compare(Want("id", value), rec["id"]) == 0 <==>
                            SameValue("long", r.vals["id"].scalar, value.scalar))
  {
    hide ParseInt;
  }

  lemma ValMatches(value: TypedVal, r: GenRow)
    ensures var rec := RecordOf()(r);
            && ("val" in rec <==> "val" in r.vals)
            && ("val" in rec ==> (Values.Compare(Want("val", value), rec["val"]) == 0 <==>
                                  SameValue("string", r.vals["val"].scalar, value.scalar)))
  {
  }

  lemma EqualMatches(term: string, want: Value, r: Record)
    ensures Matches(MCmp(EQ, term, want), r) <==> term in r && Values.Compare(want, r[term]) == 0
  {
  }

  /** Deleting by the matcher on records is deleting by value on the logged rows. */
  lemma DeleteAgrees(term: string, value: TypedVal, rows: seq<GenRow>)
    requires AllFit(rows) && SeedTerm(term)
    requires term == "id" ==> ParseInt(value.scalar).Some?
    ensures Filter(Survives(MCmp(EQ, term, Want(term, value))), Map(RecordOf(), rows)) ==
              Map(RecordOf(), Filter(Missed(SEED_SCHEMA, term, value), rows))
    ensures AllFit(Filter(Missed(SEED_SCHEMA, term, value), rows))
  {
    var m := MCmp(EQ, term, Want(term, value));
    forall i | 0 <= i < |rows|
      ensures Survives(m)(RecordOf()(rows[i])) == Missed(SEED_SCHEMA, term, value)(rows[i])
    {
      HitIsMatch(term, value, rows[i]);
    }
    FilterMap(Survives(m), Missed(SEED_SCHEMA, term, value), RecordOf(), rows);
    var rest := Filter(Missed(SEED_SCHEMA, term, value), rows);
    forall i | 0 <= i < |rest| ensures RowFits(SEED_SCHEMA, rest[i]) {
      FilterIn(Missed(SEED_SCHEMA, term, value), rows, rest[i]);
      assert rest[i] in rows;
    }
  }

  // ----- the run follows the replay

  ghost predicate Follows(l: Logical, g: Replayed) {
    && Invariant(l)
    && l.schema == Table() && g.schema == SEED_SCHEMA && l.labels == AuthoredLabels(FIELDS)
    && AllFit(g.live) && l.live == Map(RecordOf(), g.live)
    && l.binds.Keys == g.binds
  }

  lemma StartFollows(v: nat)
    ensures BuildSchema(FIELDS) == Table() && DistinctNames(Table())
    ensures Start(Header(v, FIELDS)).Ok?
    ensures Follows(Start(Header(v, FIELDS)).value, ReplayOps(SEED_SCHEMA, []))
  {
    StartInvariant(Header(v, FIELDS));
  }

  /** One entry after the op's lowering: it runs, the table has a snapshot, the replay is followed. */
  ghost predicate StepFollows(l: Logical, g: Replayed, idx: nat, op: Op) {
    && Step(l, idx, LowerOp()(op)).Ok?
    && Follows(Step(l, idx, LowerOp()(op)).value, ReplayStep(g, op))
    && Step(l, idx, LowerOp()(op)).value.commits != []
  }

  lemma AppendFollows(l: Logical, g: Replayed, idx: nat, rows: seq<GenRow>)
    requires Follows(l, g) && Meaningful(g, AppendOp(rows))
    ensures StepFollows(l, g, idx, AppendOp(rows))
  {
    hide Invariant, StepAppend, WriteProblem, ToRecords, RowFits;
    RowsLower(rows);
    RowsWritable(rows);
    AppendRuns(l, Map(LowerRow(), rows), Map(RecordOf(), rows));
    MapAppend(RecordOf(), g.live, rows);
    assert LowerOp()(AppendOp(rows)) == Append(Map(LowerRow(), rows));
  }

  lemma DeleteFollows(l: Logical, g: Replayed, idx: nat, term: string, value: TypedVal)
    requires Follows(l, g) && l.version == 2 && l.commits != [] && Meaningful(g, DeleteOp(term, value))
    ensures StepFollows(l, g, idx, DeleteOp(term, value))
  {
    hide Invariant, StepDelete, MatcherOf, Matches, Want, EqPred, Filter, Map;
    hide AllFit, SomeHit, TypeNamed, TagOf, RecordOf;
    SeedTypes();
    DeleteLowers(term, value, g.live);
    DeleteAgrees(term, value, g.live);
    DeleteRuns(l, idx, "position", EqPred(term, value), MCmp(EQ, term, Want(term, value)));
    assert LowerOp()(DeleteOp(term, value)) == Delete("position", Some(EqPred(term, value)));
  }

  lemma ObserveFollows(l: Logical, g: Replayed, idx: nat, at: string, bind: string)
    requires Follows(l, g) && l.commits != [] && Meaningful(g, ObserveOp(at, bind))
    ensures StepFollows(l, g, idx, ObserveOp(at, bind))
  {
    hide Invariant, StepObserve, Map, AllFit, SchemaFields, RecordOf, EmitsAt, SourceSchema, SourceRows, AtEcho;
    var bound := if bind == "" then None else Some(bind);
    ObserveInvariant(l, Named(at), bound);
    assert at == "latest" || at in l.binds;
    assert LowerOp()(ObserveOp(at, bind)) == Observe(Named(at), bound);
  }

  lemma OpFollows(l: Logical, g: Replayed, idx: nat, op: Op)
    requires Follows(l, g) && Meaningful(g, op) && (l.commits != [] || op.AppendOp?)
    requires op.DeleteOp? ==> l.version == 2
    ensures StepFollows(l, g, idx, op)
  {
    hide Meaningful, StepFollows;
    match op {
      case AppendOp(rows) => AppendFollows(l, g, idx, rows);
      case DeleteOp(term, value) => DeleteFollows(l, g, idx, term, value);
      case ObserveOp(at, bind) => ObserveFollows(l, g, idx, at, bind);
      case PromoteOp(id, to) => NoPromotion(g, id, to);
    }
  }

  lemma NoPromotion(g: Replayed, id: int, to: string)
    requires g.schema == SEED_SCHEMA
    ensures !Meaningful(g, PromoteOp(id, to))
  {
    if FieldIndex(g.schema, id).Some? {
      var ty := g.schema[FieldIndex(g.schema, id).value].ty;
      assert ty == "long" || ty == "string";
    }
  }

  predicate Deletes(ops: seq<Op>) {
    exists i :: 0 <= i < |ops| && ops[i].DeleteOp?
  }

  lemma DeletesSomething(ops: seq<Op>)
    requires Deletes(ops)
    ensures ops != []
  {
  }

  lemma DeletesSnoc(front: seq<Op>, op: Op)
    ensures Deletes(front + [op]) <==> Deletes(front) || op.DeleteOp?
  {
    var all := front + [op];
    if Deletes(front) {
      var i :| 0 <= i < |front| && front[i].DeleteOp?;
      assert all[i].DeleteOp?;
    }
    if op.DeleteOp? {
      assert all[|front|].DeleteOp?;
    }
  }

  /** At version 2, or without deletes, a meaningful log runs to the end, in step with its replay. */
  lemma {:induction false} LogFollows(v: nat, ops: seq<Op>)
    requires MeaningfulLog(SEED_SCHEMA, ops) && ops != [] && ops[0].AppendOp?
    requires v == 2 || !Deletes(ops)
    ensures Run(Header(v, FIELDS), LowerOps(ops)).Ok?
    ensures Run(Header(v, FIELDS), LowerOps(ops)).value.commits != []
    ensures Follows(Run(Header(v, FIELDS), LowerOps(ops)).value, ReplayOps(SEED_SCHEMA, ops))
  {
    hide Follows, Meaningful, Step, BuildSchema, ReplayStep, Deletes;
    var h, front, op := Header(v, FIELDS), ops[..|ops| - 1], ops[|ops| - 1];
    assert ops == front + [op];
    MeaningfulFront(SEED_SCHEMA, ops);
    DeletesSnoc(front, op);
    LowerSnoc(front, op);
    RunSnoc(h, LowerOps(front), LowerOp()(op));
    ReplaySnoc(SEED_SCHEMA, front, op);
    if front == [] {
      StartFollows(v);
    } else {
      LogFollows(v, front);
      RunVersion(h, LowerOps(front));
    }
    OpFollows(Run(h, LowerOps(front)).value, ReplayOps(SEED_SCHEMA, front), |front|, op);
  }

  /** How a run of a log with a delete ends where the table takes no position deletes. */
  predicate Refusal(v: nat, e: RunError) {
    if v >= 3 then e.Unsupported? else e == Failure(CommitRejected)
  }

  lemma DeleteRefused(l: Logical, g: Replayed, idx: nat, term: string, value: TypedVal)
    requires Follows(l, g) && l.version != 2 && Meaningful(g, DeleteOp(term, value))
    ensures Step(l, idx, LowerOp()(DeleteOp(term, value))).Err?
    ensures Refusal(l.version, Step(l, idx, LowerOp()(DeleteOp(term, value))).error)
  {
    hide MatcherOf, Matches, Want, EqPred, Map, AllFit, SomeHit, TypeNamed, TagOf, RecordOf;
    SeedTypes();
    DeleteLowers(term, value, g.live);
    HitIsStored(l, g, term, value);
    assert LowerOp()(DeleteOp(term, value)) == Delete("position", Some(EqPred(term, value)));
  }

  lemma HitIsStored(l: Logical, g: Replayed, term: string, value: TypedVal)
    requires Follows(l, g) && SeedTerm(term) && SomeHit(SEED_SCHEMA, term, value, g.live)
    requires term == "id" ==> ParseInt(value.scalar).Some?
    ensures AnyMatch(MCmp(EQ, term, Want(term, value)), l.stored)
  {
    hide Matches, Want, RecordOf, Hit;
    var i :| 0 <= i < |g.live| && Hit(SEED_SCHEMA, term, value, g.live[i]);
    HitIsMatch(term, value, g.live[i]);
    assert l.live[i] == RecordOf()(g.live[i]) && l.live[i] in l.live && l.live[i] in l.stored;
    var j :| 0 <= j < |l.stored| && l.stored[j] == l.live[i];
    assert Matches(MCmp(EQ, term, Want(term, value)), l.stored[j]);
  }

  /** Elsewhere than at version 2 the first delete ends the run, as unsupported or as rejected. */
  lemma {:induction false} LogRefused(v: nat, ops: seq<Op>)
    requires MeaningfulLog(SEED_SCHEMA, ops) && ops != [] && ops[0].AppendOp?
    requires v != 2 && Deletes(ops)
    ensures Run(Header(v, FIELDS), LowerOps(ops)).Err? && Refusal(v, Run(Header(v, FIELDS), LowerOps(ops)).error)
  {
    hide Follows, Meaningful, Step, BuildSchema, ReplayStep, Deletes, Refusal;
    var h, front, op := Header(v, FIELDS), ops[..|ops| - 1], ops[|ops| - 1];
    assert ops == front + [op];
    MeaningfulFront(SEED_SCHEMA, ops);
    DeletesSnoc(front, op);
    LowerSnoc(front, op);
    RunSnoc(h, LowerOps(front), LowerOp()(op));
    if Deletes(front) {
      DeletesSomething(front);
      LogRefused(v, front);
    } else {
      LogFollows(v, front);
      RunVersion(h, LowerOps(front));
      DeleteRefused(Run(h, LowerOps(front)).value, ReplayOps(SEED_SCHEMA, front), |front|, op.term, op.value);
    }
  }

  lemma LowerSnoc(front: seq<Op>, op: Op)
    ensures LowerOps(front + [op]) == LowerOps(front) + [LowerOp()(op)]
  {
    MapSnoc(LowerOp(), front, op);
  }

  // ----- the final observation shows the predicted keys

  function KeyCell(): GenRow -> Json {
    (r: GenRow) => RowJson()(Decoder(Table(), AuthoredLabels(FIELDS))(RecordOf()(r)))
  }

  lemma SeedLabels()
    ensures AuthoredLabels(FIELDS) == map[ROW_KEY := 0, "id" := 1, "val" := 2]
  {
    assert FIELDS[..1][..0] == [] && FIELDS[..|FIELDS| - 1] == FIELDS[..1];
    assert AuthoredLabels(FIELDS[..1]) == map[ROW_KEY := 0, "id" := 1];
  }

  /** A decoded row shows its own row key in cell 0. */
  lemma RowShowsKey(r: GenRow)
    ensures ShownKey()(KeyCell()(r)) == [r.rowKey]
  {
    SeedLabels();
    var t, labels, rec := Table(), AuthoredLabels(FIELDS), RecordOf()(r);
    ItoaInjective(0, 1);
    ItoaInjective(0, 2);
    assert Itoa(0) == "0";
    assert t[..2][..1] == t[..1] && t[..1][..0] == [] && t[..|t| - 1] == t[..2];
    var one := DecodeColumns(t[..1], labels, rec);
    assert t[..1] == [t[0]] && rec[ROW_KEY] == StrV(r.rowKey) && labels[ROW_KEY] == 0;
    assert DecodeColumns([], labels, rec) == map[];
    assert one == map["0" := ValueNode("string", JStr(r.rowKey))];
    var two := DecodeColumns(t[..2], labels, rec);
    assert "0" in two && two["0"] == one["0"];
    var row := DecodeColumns(t, labels, rec);
    assert "0" in row && row["0"] == one["0"];
  }

  lemma {:induction false} RowsShowKeys(rows: seq<GenRow>)
    ensures RowKeys(Map(KeyCell(), rows)) == Keys(rows)
  {
    if rows != [] {
      hide KeyCell, ShownKey;
      RowShowsKey(rows[0]);
      RowsShowKeys(rows[1..]);
      assert Map(KeyCell(), rows)[1..] == Map(KeyCell(), rows[1..]);
      assert Keys(rows) == [rows[0].rowKey] + Keys(rows[1..]);
    }
  }

  /** The emitted rows, in whatever order they were scanned, show the replay's keys. */
  lemma EmittedKeys(decoded: seq<DecodedRow>, live: seq<GenRow>)
    requires SameBag(decoded, Map(Decoder(Table(), AuthoredLabels(FIELDS)), Map(RecordOf(), live)))
    ensures SameBag(RowKeys(Map(RowJson(), decoded)), Keys(live))
  {
    var spec := Map(Decoder(Table(), AuthoredLabels(FIELDS)), Map(RecordOf(), live));
    MapBag(RowJson(), decoded, spec);
    FlatMapBag(ShownKey(), Map(RowJson(), decoded), Map(RowJson(), spec));
    var cells := Map(RowJson(), spec);
    assert cells == Map(KeyCell(), live) by {
      forall i | 0 <= i < |live| ensures cells[i] == KeyCell()(live[i]) {
        assert spec[i] == Decoder(Table(), AuthoredLabels(FIELDS))(Map(RecordOf(), live)[i]);
      }
    }
    RowsShowKeys(live);
  }

  lemma SeedTypesPredicted(fields: seq<SchemaField>)
    requires SchemaFields(Table(), AuthoredLabels(FIELDS)) == Ok(fields)
    ensures TypesAsPredicted(Map(FieldJson(), fields), TypesOf(SEED_SCHEMA))
  {
    hide AuthoredLabels;
    SchemaFieldsAt(Table(), AuthoredLabels(FIELDS));
    hide SchemaFields;
    assert SEED_SCHEMA[..1][..0] == [] && SEED_SCHEMA[..|SEED_SCHEMA| - 1] == SEED_SCHEMA[..1];
    assert TypesOf(SEED_SCHEMA[..1]) == map["id" := "long"];
    assert TypesOf(SEED_SCHEMA) == map["id" := "long", "val" := "string"];
    forall i | 0 <= i < |fields| ensures TypeAsPredicted(Map(FieldJson(), fields)[i], TypesOf(SEED_SCHEMA)) {
      var f := fields[i];
      assert f.name == Table()[i].name && f.ty == TypeName(Table()[i].ty);
    }
  }

  /** An output that matches the logical run of a sound log passes the check. */
  lemma SoundLogAccepted(log: OpLog, count: int, feat: Features, out: I.Output)
    requires SoundLog(log, log.ops, count, feat) && log.schema == SEED_SCHEMA
    requires log.version == 2 || !Deletes(log.ops)
    requires Run(Header(log.version, FIELDS), LowerOps(log.ops)).Ok?
    requires I.EmitsLike(out, Run(Header(log.version, FIELDS), LowerOps(log.ops)).value)
    ensures FinalAsPredicted(OutputJson(out), log.finalRowKeys, log.finalTypes)
  {
    hide Step, Meaningful, Run, Deletes, Emitted, ReplayOps, LowerOps;
    var ops := log.ops;
    var front := ops[..|ops| - 1];
    assert ops == front + [ObserveOp("latest", "")];
    DeletesSnoc(front, ObserveOp("latest", ""));
    MeaningfulFront(SEED_SCHEMA, ops);
    FinalObservation(log.version, front, out);
    FinalReplay(front);
    StableSortCorrect(Self, Keys(ReplayOps(SEED_SCHEMA, ops).live));
  }

  lemma FinalReplay(front: seq<Op>)
    ensures ReplayOps(SEED_SCHEMA, front + [ObserveOp("latest", "")]) == ReplayOps(SEED_SCHEMA, front)
  {
    ReplaySnoc(SEED_SCHEMA, front, ObserveOp("latest", ""));
  }

  lemma FinalObservation(v: nat, front: seq<Op>, out: I.Output)
    requires MeaningfulLog(SEED_SCHEMA, front) && front != [] && front[0].AppendOp?
    requires v == 2 || !Deletes(front)
    requires Run(Header(v, FIELDS), LowerOps(front + [ObserveOp("latest", "")])).Ok?
    requires I.EmitsLike(out, Run(Header(v, FIELDS), LowerOps(front + [ObserveOp("latest", "")])).value)
    ensures ReplayOps(SEED_SCHEMA, front).schema == SEED_SCHEMA
    ensures FinalAsPredicted(OutputJson(out), Keys(ReplayOps(SEED_SCHEMA, front).live), TypesOf(SEED_SCHEMA))
  {
    hide Step, Run, MeaningfulLog;
    var h := Header(v, FIELDS);
    LogFollows(v, front);
    LowerSnoc(front, ObserveOp("latest", ""));
    RunSnoc(h, LowerOps(front), Observe(Named("latest"), None));
    ObserveStep(Run(h, LowerOps(front)).value, |LowerOps(front)|);
    LatestAsPredicted(Run(h, LowerOps(front)).value, ReplayOps(SEED_SCHEMA, front), out);
  }

  /** A state that follows the replay shows, at latest, the replay's keys and the seed's types. */
  lemma LatestAsPredicted(l: Logical, g: Replayed, out: I.Output)
    requires Follows(l, g) && StepObserve(l, Named("latest"), None).Ok?
    requires I.EmitsLike(out, StepObserve(l, Named("latest"), None).value)
    ensures g.schema == SEED_SCHEMA
    ensures FinalAsPredicted(OutputJson(out), Keys(g.live), TypesOf(SEED_SCHEMA))
  {
    hide Invariant, StepObserve, TypesOf, OutputJson, Keys, RowKeys, I.SnapshotsMatch;
    ObserveInvariant(l, Named("latest"), None);
    var k := StepObserve(l, Named("latest"), None).value;
    assert SameObservations(out.observations, k.observations);
    var obs := out.observations[|l.observations|];
    assert SameObservation(obs, k.observations[|l.observations|]);
    EmittedKeys(obs.decodedRows, g.live);
    SeedTypesPredicted(obs.icebergSchema);
    LastInJson(out, obs);
  }

  lemma ObserveStep(l: Logical, idx: nat)
    ensures Step(l, idx, Observe(Named("latest"), None)) == StepObserve(l, Named("latest"), None)
  {
  }

  lemma LastInJson(out: I.Output, obs: Observation)
    requires out.observations != [] && out.observations[|out.observations| - 1] == obs
    ensures var shown := Arr(Get(OutputJson(out), "observations"));
            && shown != []
            && RowsOf(MembersOf(shown[|shown| - 1])) == Map(RowJson(), obs.decodedRows)
            && Arr(Get(MembersOf(shown[|shown| - 1]), "iceberg-schema")) == Map(FieldJson(), obs.icebergSchema)
  {
  }

  // ----- no false alarms

  function ExitCode(r: Result<I.Output, RunError>): int {
    match r
    case Ok(_) => 0
    case Err(Unsupported(_, _)) => 4
    case Err(Failure(_)) => 1
  }

  /**
   A metamorphic seed, for every choice stream, format version and op count. At version 2 it never
   raises an alarm: the log runs to the end and the check accepts its keys and its types. Below
   version 2 it raises one exactly when the log holds a delete, and above it such a log is skipped.
   */
  method FuzzSeed(stream: Stream, version: nat, count: int) returns (log: OpLog, r: SeedResult, code: int)
    ensures log == LogOf(stream, version, count, Features(true, version >= 2, false))
    ensures SoundLog(log, log.ops, count, Features(true, version >= 2, false)) && log.version == version
    ensures version == 2 ==> r == ResultOk && code == 0
    ensures version < 2 ==> (r == ResultOk <==> !Deletes(log.ops)) && (r == SpecInvalid <==> Deletes(log.ops))
    ensures version > 2 ==> r == ResultOk && code == if Deletes(log.ops) then 4 else 0
  {
    hide SoundLog, Run, I.EmitsLike, FinalAsPredicted, Deletes, LogOf;
    var feat := Features(true, version >= 2, false);
    log := Generate(stream, version, count, feat);
    assert log.schema == SEED_SCHEMA;
    SeedLowers(log);
    SoundLogRuns(log, count, feat);
    var ran := I.Execute(LowerHeader(log), LowerOps(log.ops));
    code := ExitCode(ran);
    if ran.Ok? {
      SoundLogAccepted(log, count, feat, ran.value);
    }
    r := CheckSeed(code, if ran.Ok? then OutputJson(ran.value) else map[], log.finalRowKeys, log.finalTypes);
  }

  lemma SoundLogRuns(log: OpLog, count: int, feat: Features)
    requires SoundLog(log, log.ops, count, feat) && log.schema == SEED_SCHEMA
    ensures var run := Run(Header(log.version, FIELDS), LowerOps(log.ops));
            if log.version == 2 || !Deletes(log.ops) then run.Ok? else run.Err? && Refusal(log.version, run.error)
  {
    hide Follows, Deletes, Refusal, Emitted;
    if log.version == 2 || !Deletes(log.ops) {
      LogFollows(log.version, log.ops);
    } else {
      LogRefused(log.version, log.ops);
    }
  }
}
