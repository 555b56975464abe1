/**
 What single entries of a log do, in the author's own terms: which rows a delete removes, what a
 promotion leaves of a row, what is shown of an appended row, and what each commit emits.
 */
module RunMeaning {
  import opened Wrappers
  import opened Text
  import opened Seqs
  import opened Values
  import opened Numerals
  import opened Emit
  import opened Predicates
  import opened PredicateMeaning
  import opened Replay
  import opened ReplayLaws
  import opened BindLaws
  import opened DecodeLaws
  import opened GoNames

  // ----- deletes

  lemma {:induction false} FilterCount<A>(p: A -> bool, s: seq<A>, x: A)
    ensures multiset(Filter(p, s))[x] == if p(x) then multiset(s)[x] else 0
  {
    if s != [] {
      assert s == [s[0]] + s[1..];
      FilterCount(p, s[1..], x);
      if p(s[0]) {
        assert Filter(p, s) == [s[0]] + Filter(p, s[1..]);
      }
    }
  }

  /** The row holds the column, with a value of which the word says it against the literal. */
  ghost predicate Hits(p: Pred, m: Meant, r: Record) {
    p.term in r && Says(p.kind, Less(r[p.term], m), Same(r[p.term], m))
  }

  /** A delete by a comparison takes away the rows it hits, all of them, and no other. */
  lemma DeleteByComparison(h: Header, front: seq<Entry>, p: Pred, m: Meant)
    requires Run(h, front).Ok? && h.version == 2 && Run(h, front).value.commits != []
    requires IsComparisonWith(p, Run(h, front).value.schema, m)
    requires Readable(TypeOf(Run(h, front).value.schema, p.term).value, m)
    ensures var run := Run(h, front + [Delete("position", Some(p))]);
            run.Ok? && forall r :: multiset(run.value.live)[r] == if Hits(p, m, r) then 0 else multiset(Run(h, front).value.live)[r]
  {
    var l := Run(h, front).value;
    RunInvariant(h, front);
    RunTyped(h, front);
    RunIsPlain(h, front);
    RunVersion(h, front);
    SomeComparison(p, l.schema, m);
    var matcher := MatcherOf(p, l.schema).value;
    DeleteRuns(l, |front|, "position", p, matcher);
    RunSnoc(h, front, Delete("position", Some(p)));
    hide Run, StepDelete, MatcherOf, Matches, Invariant, IsComparisonWith, Less, Same, Says;
    forall r ensures multiset(Filter(Survives(matcher), l.live))[r] == if Hits(p, m, r) then 0 else multiset(l.live)[r] {
      FilterCount(Survives(matcher), l.live, r);
      if r in l.live {
        TypedComparison(p, l.schema, m, r);
      } else {
        assert multiset(l.live)[r] == 0;
      }
    }
  }

  lemma TypedComparison(p: Pred, s: Schema, m: Meant, r: Record)
    requires IsComparisonWith(p, s, m) && Readable(TypeOf(s, p.term).value, m) && Typed(s, r)
    ensures MatcherOf(p, s).Ok? && (Matches(MatcherOf(p, s).value, r) <==> Hits(p, m, r))
  {
    if p.term in r {
      ComparisonMeans(p, s, m, r[p.term], r);
    } else {
      SomeComparison(p, s, m);
    }
  }

  lemma SomeComparison(p: Pred, s: Schema, m: Meant)
    requires IsComparisonWith(p, s, m) && Readable(TypeOf(s, p.term).value, m)
    ensures MatcherOf(p, s).Ok?
    ensures forall r: Record :: p.term !in r ==> !Matches(MatcherOf(p, s).value, r)
  {
    var have := SomeValue(TypeOf(s, p.term).value);
    forall r: Record | p.term !in r ensures MatcherOf(p, s).Ok? && !Matches(MatcherOf(p, s).value, r) {
      ComparisonMeans(p, s, m, have, r);
    }
    ComparisonMeans(p, s, m, have, map[]);
  }

  function SomeValue(ty: PType): Value {
    match ty
    case TBool => BoolV(false)
    case TInt => IntV(0)
    case TLong => LongV(0)
    case TFloat => FloatV(Numeral(0, 0))
    case TDouble => DoubleV(Numeral(0, 0))
    case TString => StrV("")
    case TDecimal(_, _) => DecV(Numeral(0, 0))
  }

  // ----- promotions

  /** The value a column of this type holds after a promotion, from the one before. */
  predicate Kept(ty: PType, before: Value, after: Value) {
    if ty == TLong && before.IntV? then after == LongV(before.n)
    else if ty == TDouble && before.FloatV? then after == DoubleV(before.x)
    else after == before
  }

  /** A schema change keeps every row in its place, every cell where it was, and every number its value. */
  lemma PromotionKeepsRows(h: Header, front: seq<Entry>, changes: seq<Promotion>)
    requires Run(h, front + [Evolve(changes)]).Ok?
    ensures Run(h, front).Ok?
    ensures var l, k := Run(h, front).value, Run(h, front + [Evolve(changes)]).value;
            && |k.live| == |l.live|
            && forall i :: 0 <= i < |l.live| ==>
                 && k.live[i].Keys == l.live[i].Keys
                 && forall n :: n in l.live[i] ==>
                      TypeOf(k.schema, n).Some? && Kept(TypeOf(k.schema, n).value, l.live[i][n], k.live[i][n])
  {
    RunSnoc(h, front, Evolve(changes));
    RunInvariant(h, front);
    var l := Run(h, front).value;
    hide Run;
    EvolveInvariant(l, changes);
    var k := StepEvolve(l, changes).value;
    ConformsAll(l);
    hide Invariant, StepEvolve;
    EvolvedRows(l, changes);
    forall i | 0 <= i < |l.live|
      ensures k.live[i].Keys == l.live[i].Keys
      ensures forall n :: n in l.live[i] ==>
                TypeOf(k.schema, n).Some? && Kept(TypeOf(k.schema, n).value, l.live[i][n], k.live[i][n])
    {
      ProjectKeeps(l.schema, k.schema, l.live[i]);
    }
  }

  lemma ConformsAll(l: Logical)
    requires Invariant(l)
    ensures forall i :: 0 <= i < |l.live| ==> Conforms(l.schema, l.live[i])
  {
  }

  lemma EvolvedRows(l: Logical, changes: seq<Promotion>)
    requires StepEvolve(l, changes).Ok?
    ensures var k := StepEvolve(l, changes).value; |k.live| == |l.live| && forall i :: 0 <= i < |l.live| ==> k.live[i] == Project(k.schema)(l.live[i])
  {
    hide ApplyPromotions, Project;
  }

  lemma ProjectKeeps(a: Schema, b: Schema, r: Record)
    requires Widens(a, b) && Conforms(a, r)
    ensures Project(b)(r).Keys == r.Keys
    ensures forall n :: n in r ==> TypeOf(b, n).Some? && Kept(TypeOf(b, n).value, r[n], Project(b)(r)[n])
  {
    forall n | n in r ensures TypeOf(b, n).Some? {
      WidensTypes(a, b, n);
    }
  }

  // ----- the schema shown

  /** The word a column type is emitted as. */
  function Word(ty: PType): string {
    match ty
    case TBool => "boolean"
    case TInt => "int"
    case TLong => "long"
    case TFloat => "float"
    case TDouble => "double"
    case TString => "string"
    case TDecimal(p, s) => "decimal(" + Itoa(p) + ", " + Itoa(s) + ")"
  }

  /** Promotions aside, the columns of a run are the row key and the header's, in order. */
  lemma ColumnsOfRun(h: Header, entries: seq<Entry>, c: nat)
    requires Run(h, entries).Ok? && c <= |h.fields|
    ensures var l := Run(h, entries).value;
            && |l.schema| == |h.fields| + 1
            && l.schema[c].name == (if c == 0 then "__rowkey" else h.fields[c - 1].name)
            && l.schema[c].name in l.labels
            && l.labels[l.schema[c].name] == (if c == 0 then 0 else if NoEvolve(entries) then h.fields[c - 1].id else c)
            && (c == 0 ==> l.schema[c].ty == TString)
            && (c > 0 ==> h.fields[c - 1].name != "__rowkey")
  {
    hide Run, NoEvolve, DistinctNames, AuthoredLabels, PositionalLabels, NamesColumns;
    LabelsOfRun(h, entries);
    SchemaOfRun(h, entries);
    AuthoredColumns(h.fields);
    PositionalColumns(h.fields);
    NamesAreFresh(h.fields);
    var l := Run(h, entries).value;
    assert BuildSchema(h.fields)[c].name == l.schema[c].name;
    assert BuildSchema(h.fields)[0].ty == TString;
    if NoEvolve(entries) {
      assert GoResolves(l.labels, HeaderIds(h.fields)(c), ColumnName(h.fields, c));
    } else {
      assert GoResolves(l.labels, Positions()(c), ColumnName(h.fields, c));
    }
  }

  /** Before any schema change the columns have the header's types. */
  lemma {:induction false} TypesUnchanged(h: Header, entries: seq<Entry>)
    requires Run(h, entries).Ok? && NoEvolve(entries)
    ensures Run(h, entries).value.schema == BuildSchema(h.fields)
  {
    hide Run, Step, BuildSchema;
    RunLast(h, entries);
    if entries == [] {
      StartSchema(h);
    } else {
      var front := entries[..|entries| - 1];
      TypesUnchanged(h, front);
      StepSchema(Run(h, front).value, |front|, entries[|front|]);
    }
  }

  lemma StartSchema(h: Header)
    requires Start(h).Ok?
    ensures Start(h).value.schema == BuildSchema(h.fields)
    ensures Start(h).value.schema == [Field(100000, "__rowkey", TString, false)] + h.fields
  {
  }

  lemma StepSchema(l: Logical, idx: nat, e: Entry)
    requires Step(l, idx, e).Ok? && !e.Evolve?
    ensures Step(l, idx, e).value.schema == l.schema
  {
    hide MatcherOf, SchemaFields, ToRecords, WriteProblem, AnyMatch, SourceSchema, SourceRows;
  }

  lemma TypeNameIsWord(ty: PType)
    ensures TypeName(ty) == Word(ty)
  {
  }

  lemma StringWord()
    ensures Word(TString) == "string"
  {
  }

  lemma HeaderField(fields: Schema, c: nat)
    requires 1 <= c <= |fields|
    ensures c < |BuildSchema(fields)| && BuildSchema(fields)[c] == fields[c - 1]
  {
  }

  /** The schema shown at latest: the row key under 0, then every column under its id, its name and its type's word. */
  lemma SchemaShown(h: Header, entries: seq<Entry>)
    requires Run(h, entries).Ok?
    ensures var l, obs := Run(h, entries).value, Shown(Run(h, entries).value, Named("latest"), None);
            && obs.Some? && |obs.value.icebergSchema| == |l.schema| == |h.fields| + 1
            && obs.value.icebergSchema[0] == SchemaField(0, "__rowkey", "string")
            && forall c :: 1 <= c <= |h.fields| ==>
                 && obs.value.icebergSchema[c] ==
                      SchemaField(if NoEvolve(entries) then h.fields[c - 1].id else c, h.fields[c - 1].name, Word(l.schema[c].ty))
                 && (NoEvolve(entries) ==> l.schema[c].ty == h.fields[c - 1].ty)
  {
    hide Run, NoEvolve, Shown, SchemaFields, Invariant, TypeName, Word;
    var l := Run(h, entries).value;
    RunInvariant(h, entries);
    ObserveShows(l, Named("latest"), None);
    SchemaFieldsAt(l.schema, l.labels);
    ColumnsOfRun(h, entries, 0);
    TypeNameIsWord(TString);
    StringWord();
    hide BuildSchema;
    if NoEvolve(entries) {
      TypesUnchanged(h, entries);
    }
    forall c | 1 <= c <= |h.fields|
      ensures Shown(l, Named("latest"), None).value.icebergSchema[c] ==
                SchemaField(if NoEvolve(entries) then h.fields[c - 1].id else c, h.fields[c - 1].name, Word(l.schema[c].ty))
      ensures NoEvolve(entries) ==> l.schema[c].ty == h.fields[c - 1].ty
    {
      HeaderField(h.fields, c);
      ColumnsOfRun(h, entries, c);
      TypeNameIsWord(l.schema[c].ty);
    }
  }

  // ----- the rows shown

  /** The cell that shows what the author meant: numbers by value, text as it was, the type by its word. */
  ghost predicate Depicts(ty: PType, m: Meant, node: ValueNode) {
    node.ty == Word(ty) &&
    match ty
    case TBool => m.ATruth? && node.value == JBool(m.b)
    case TInt => m.AnInteger? && node.value == JNum(Numeral(m.n, 0))
    case TLong => m.AnInteger? && node.value == JStr(Itoa(m.n))
    case TFloat => m.ANumber? && node.value.JNum? && IsValue(node.value.x, m.y)
    case TDouble => m.ANumber? && node.value.JNum? && IsValue(node.value.x, m.y)
    case TString => m.AText? && node.value == JStr(m.t)
    case TDecimal(_, _) => m.ANumber? && node.value == JStr(PlainText(m.y))
  }

  predicate IsValue(x: Numeral, y: Numeral) {
    x.unscaled * Pow10(y.scale) == y.unscaled * Pow10(x.scale)
  }

  lemma LiteralDepicted(ty: PType, m: Meant)
    requires Readable(ty, m)
    ensures ParseValue(ty, Written(m)).Some?
    ensures Depicts(ty, m, NodeOf(ty, ParseValue(ty, Written(m)).value))
  {
    TypeNameIsWord(ty);
    hide ParseNumeral, ParseInt, PlainText, Itoa, TypeName, Word, Pow10, Normalize;
    match m {
      case AnInteger(n) => ItoaRoundTrip(n);
      case ANumber(y) =>
        PlainTextRoundTrip(y);
        NormalizeKeepsValue(y);
      case _ =>
    }
  }

  /** Every column of a record is what its cell was read as. */
  lemma {:induction false} RecordCell(s: Schema, row: RowIn, i: nat)
    requires DistinctNames(s) && ToRecord(s, row).Ok? && i < |s|
    ensures ColumnValue(s[i], row).Ok?
    ensures s[i].name in ToRecord(s, row).value <==> ColumnValue(s[i], row).value.Some?
    ensures s[i].name in ToRecord(s, row).value ==> ToRecord(s, row).value[s[i].name] == ColumnValue(s[i], row).value.value
  {
    hide ColumnValue;
    var front, last := s[..|s| - 1], |s| - 1;
    if i < last {
      assert front[i] == s[i] && s[i].name != s[last].name;
      RecordCell(front, row, i);
    } else {
      NotYet(front, row, s[last].name);
    }
  }

  lemma {:induction false} NotYet(s: Schema, row: RowIn, n: string)
    requires ToRecord(s, row).Ok? && forall i :: 0 <= i < |s| ==> s[i].name != n
    ensures n !in ToRecord(s, row).value
  {
    hide ColumnValue;
    if s != [] {
      NotYet(s[..|s| - 1], row, n);
    }
  }

  lemma {:induction false} RecordsAt(s: Schema, rows: seq<RowIn>, j: nat)
    requires ToRecords(s, rows).Ok? && j < |rows|
    ensures ToRecord(s, rows[j]) == Ok(ToRecords(s, rows).value[j])
  {
    hide ToRecord;
    if j < |rows| - 1 {
      RecordsAt(s, rows[..|rows| - 1], j);
    }
  }

  /** The cell shown for column `c` of a row. */
  ghost predicate ShowsCell(f: Field, row: RowIn, key: string, shown: DecodedRow) {
    && (f.name !in row.vals || (row.vals[f.name].Scalar? && row.vals[f.name].tag == "null") ==> key !in shown)
    && forall m :: f.name in row.vals && IsWritten(row.vals[f.name], m) && Readable(f.ty, m) ==>
         key in shown && Depicts(f.ty, m, shown[key])
  }

  lemma CellDepicted(s: Schema, labels: Labels, row: RowIn, c: nat)
    requires DistinctNames(s) && LabelsApart(s, labels) && ToRecord(s, row).Ok? && 0 < c < |s| && s[c].name != "__rowkey"
    ensures ShowsCell(s[c], row, Itoa(labels[s[c].name]), DecodeColumns(s, labels, ToRecord(s, row).value))
  {
    var rec, key := ToRecord(s, row).value, Itoa(labels[s[c].name]);
    RecordCell(s, row, c);
    DecodedCell(s, labels, rec, c);
    hide ToRecord, DecodeColumns, Depicts, Readable, Written, NodeOf, ParseValue, Itoa;
    forall m | s[c].name in row.vals && IsWritten(row.vals[s[c].name], m) && Readable(s[c].ty, m)
      ensures key in DecodeColumns(s, labels, rec) && Depicts(s[c].ty, m, DecodeColumns(s, labels, rec)[key])
    {
      LiteralDepicted(s[c].ty, m);
    }
  }

  lemma KeyDepicted(s: Schema, labels: Labels, row: RowIn)
    requires DistinctNames(s) && LabelsApart(s, labels) && ToRecord(s, row).Ok? && s != [] && s[0].name == "__rowkey" && s[0].ty == TString
    ensures var shown, key := DecodeColumns(s, labels, ToRecord(s, row).value), Itoa(labels["__rowkey"]);
            && (row.rowKey.None? ==> key !in shown)
            && (row.rowKey.Some? ==> key in shown && shown[key] == ValueNode("string", JStr(row.rowKey.value)))
  {
    RecordCell(s, row, 0);
    DecodedCell(s, labels, ToRecord(s, row).value, 0);
    hide ToRecord, DecodeColumns, Itoa;
  }

  /**
   What was appended is shown: row `j` of the append stands at latest after the rows there were, its
   key under 0, and under the id of column `c` what the author meant, or nothing where he wrote
   nothing or null.
   */
  lemma AppendShown(h: Header, front: seq<Entry>, rows: seq<RowIn>, j: nat)
    requires Run(h, front + [Append(rows)]).Ok? && j < |rows|
    requires UsableIds(h.fields) || !NoEvolve(front)
    ensures Run(h, front).Ok?
    ensures var l, k := Run(h, front).value, Run(h, front + [Append(rows)]).value;
            var obs := Shown(k, Named("latest"), None);
            && |k.schema| == |h.fields| + 1
            && obs.Some? && |obs.value.decodedRows| == |l.live| + |rows|
            && var row := obs.value.decodedRows[|l.live| + j];
               && (rows[j].rowKey.None? ==> "0" !in row)
               && (rows[j].rowKey.Some? ==> "0" in row && row["0"] == ValueNode("string", JStr(rows[j].rowKey.value)))
               && forall c :: 1 <= c <= |h.fields| ==>
                    && k.schema[c].name == h.fields[c - 1].name
                    && (NoEvolve(front) ==> k.schema[c].ty == h.fields[c - 1].ty)
                    && ShowsCell(k.schema[c], rows[j], Itoa(if NoEvolve(front) then h.fields[c - 1].id else c), row)
  {
    var entries := front + [Append(rows)];
    RunSnoc(h, front, Append(rows));
    EvolveFree(front, rows);
    hide Run, NoEvolve, Shown, Invariant, UsableIds, LabelsApart, ShowsCell, SchemaFields;
    var l, k := Run(h, front).value, Run(h, entries).value;
    RunInvariant(h, front);
    RunInvariant(h, entries);
    RunLabelsApart(h, entries);
    RunLabelsApart(h, front);
    AppendedRow(l, rows, j);
    ObserveShows(k, Named("latest"), None);
    DistinctOfRun(k);
    ColumnsOfRun(h, entries, 0);
    KeyDepicted(k.schema, k.labels, rows[j]);
    assert Itoa(0) == "0";
    if NoEvolve(front) {
      TypesUnchanged(h, entries);
    }
    forall c | 1 <= c <= |h.fields|
      ensures k.schema[c].name == h.fields[c - 1].name
      ensures ShowsCell(k.schema[c], rows[j], Itoa(if NoEvolve(front) then h.fields[c - 1].id else c),
                        Shown(k, Named("latest"), None).value.decodedRows[|l.live| + j])
    {
      ColumnsOfRun(h, entries, c);
      CellDepicted(k.schema, k.labels, rows[j], c);
    }
  }

  lemma EvolveFree(front: seq<Entry>, rows: seq<RowIn>)
    ensures NoEvolve(front + [Append(rows)]) <==> NoEvolve(front)
  {
    var all := front + [Append(rows)];
    assert forall i :: 0 <= i < |front| ==> all[i] == front[i];
  }

  lemma DistinctOfRun(l: Logical)
    requires Invariant(l)
    ensures DistinctNames(l.schema)
  {
  }

  /** The rows of an append follow those there were, each as its record. */
  lemma AppendedRow(l: Logical, rows: seq<RowIn>, j: nat)
    requires StepAppend(l, rows).Ok? && j < |rows|
    ensures var k := StepAppend(l, rows).value;
            && k.schema == l.schema && k.labels == l.labels && |k.live| == |l.live| + |rows|
            && ToRecord(k.schema, rows[j]) == Ok(k.live[|l.live| + j])
  {
    RecordsAt(l.schema, rows, j);
    hide ToRecord, ToRecords, WriteProblem;
  }

  // ----- which rows are taken

  /** A literal of the kind the column takes, in its range or not. */
  predicate SameKind(ty: PType, m: Meant) {
    match ty
    case TBool => m.ATruth?
    case TInt => m.AnInteger?
    case TLong => m.AnInteger?
    case TFloat => m.ANumber?
    case TDouble => m.ANumber?
    case TString => m.AText?
    case TDecimal(_, _) => m.ANumber?
  }

  /** Nothing is written in the column, or a null. */
  predicate IsNullIn(row: RowIn, n: string) {
    n !in row.vals || (row.vals[n].Scalar? && row.vals[n].tag == "null")
  }

  /** The column's width, precision and scale have room for it. */
  predicate HasRoom(ty: PType, m: Meant) {
    && Readable(ty, m)
    && (ty.TDecimal? && m.ANumber? ==>
          m.y.scale == ty.scale && m.y.unscaled < Pow10(ty.precision) && -m.y.unscaled < Pow10(ty.precision))
  }

  lemma {:induction false} DigitsBelow(n: nat, p: nat)
    requires p > 0
    ensures |NatText(n)| <= p <==> n < Pow10(p)
  {
    if n >= 10 {
      if p > 1 {
        DigitsBelow(n / 10, p - 1);
      } else {
        assert Pow10(1) == 10 * Pow10(0);
      }
    } else {
      PowPositive(p - 1);
    }
  }

  lemma {:induction false} ColumnsRead(s: Schema, row: RowIn)
    ensures ToRecord(s, row).Ok? <==> forall c :: 0 <= c < |s| ==> ColumnValue(s[c], row).Ok?
  {
    hide ColumnValue;
    if s != [] {
      ColumnsRead(s[..|s| - 1], row);
    }
  }

  lemma OneRecord(s: Schema, row: RowIn)
    ensures ToRecords(s, [row]) == if ToRecord(s, row).Ok? then Ok([ToRecord(s, row).value]) else Err(ToRecord(s, row).error)
  {
    hide ToRecord;
    assert [row][..0] == [];
    assert ToRecords(s, []) == Ok([]);
    if ToRecord(s, row).Ok? {
      assert [] + [ToRecord(s, row).value] == [ToRecord(s, row).value];
    }
  }

  /** A cell is taken: null where it may be, or a literal of its kind there is room for. */
  ghost predicate CellTaken(f: Field, row: RowIn, m: Meant) {
    if IsNullIn(row, f.name) then !f.required else HasRoom(f.ty, m)
  }

  /** The record holds the column as its cell was read. */
  predicate HoldsCell(f: Field, row: RowIn, rec: Record) {
    && ColumnValue(f, row).Ok? && (f.name in rec <==> ColumnValue(f, row).value.Some?)
    && (f.name in rec ==> rec[f.name] == ColumnValue(f, row).value.value)
  }

  lemma CellRead(f: Field, row: RowIn, m: Meant)
    requires f.name != "__rowkey"
    requires !IsNullIn(row, f.name) ==> IsWritten(row.vals[f.name], m) && SameKind(f.ty, m)
    ensures ColumnValue(f, row).Ok? <==> IsNullIn(row, f.name) || Readable(f.ty, m)
    ensures ColumnValue(f, row).Ok? ==> (ColumnValue(f, row).value.None? <==> IsNullIn(row, f.name))
  {
    hide ParseNumeral, ParseInt, PlainText, Itoa, Normalize;
    if !IsNullIn(row, f.name) {
      match m {
        case AnInteger(n) => ItoaRoundTrip(n);
        case ANumber(y) => PlainTextRoundTrip(y);
        case _ =>
      }
    }
  }

  lemma DecimalCell(f: Field, row: RowIn, m: Meant)
    requires f.name != "__rowkey" && f.ty.TDecimal? && !IsNullIn(row, f.name)
    requires IsWritten(row.vals[f.name], m) && m.ANumber?
    ensures ColumnValue(f, row) == Ok(Some(DecV(m.y)))
  {
    hide ParseNumeral, PlainText;
    PlainTextRoundTrip(m.y);
  }

  lemma DecimalRoom(y: Numeral, p: nat, s: nat)
    requires p > 0
    ensures FitsDecimal(y, p, s) <==> y.scale == s && y.unscaled < Pow10(p) && -y.unscaled < Pow10(p)
  {
    DigitsBelow(if y.unscaled < 0 then -y.unscaled else y.unscaled, p);
  }

  /** A cell that reads has no problem exactly when it is taken. */
  lemma CellWritten(f: Field, row: RowIn, m: Meant, rec: Record)
    requires f.name != "__rowkey" && (f.ty.TDecimal? ==> f.ty.precision > 0)
    requires !IsNullIn(row, f.name) ==> IsWritten(row.vals[f.name], m) && SameKind(f.ty, m)
    requires HoldsCell(f, row, rec)
    ensures ColumnProblem(f, rec) == None <==> CellTaken(f, row, m)
    ensures IsNullIn(row, f.name) && f.required ==> ColumnProblem(f, rec) == Some(NullRequired(f.name))
    ensures !IsNullIn(row, f.name) && !HasRoom(f.ty, m) ==> ColumnProblem(f, rec) == Some(WrongDecimal(f.name))
  {
    CellRead(f, row, m);
    hide ColumnValue, Readable, IsNullIn;
    if f.ty.TDecimal? && !IsNullIn(row, f.name) {
      DecimalCell(f, row, m);
      DecimalRoom(m.y, f.ty.precision, f.ty.scale);
    }
    hide FitsDecimal, IsWritten, Pow10;
  }

  /** At the schema: the first column is the row key's, which is never a problem. */
  lemma RowTakenAt(s: Schema, row: RowIn, meant: seq<Meant>)
    requires DistinctNames(s) && |s| == |meant| + 1 && s[0].name == "__rowkey" && !s[0].required && s[0].ty == TString
    requires forall c :: 0 <= c < |meant| ==> KindsMatch(s[c + 1], row, meant[c])
    ensures ToRecord(s, row).Ok? && RecordProblem(s, ToRecord(s, row).value) == None <==>
            forall c :: 0 <= c < |meant| ==> CellTaken(s[c + 1], row, meant[c])
  {
    hide ToRecord, RecordProblem, ColumnProblem, ColumnValue, CellTaken, Readable, IsNullIn;
    ColumnsRead(s, row);
    KeyRead(s[0], row);
    assert forall i :: 0 < i < |s| ==> s[i].name != s[0].name;
    if ToRecord(s, row).Ok? {
      var rec := ToRecord(s, row).value;
      RecordProblemAt(s, rec);
      RecordCell(s, row, 0);
      KeyWritten(s[0], rec);
      forall c | 0 <= c < |meant| ensures ColumnProblem(s[c + 1], rec) == None <==> CellTaken(s[c + 1], row, meant[c]) {
        RecordCell(s, row, c + 1);
        CellWritten(s[c + 1], row, meant[c], rec);
      }
      if forall c :: 0 <= c < |meant| ==> CellTaken(s[c + 1], row, meant[c]) {
        forall i | 0 <= i < |s| ensures ColumnProblem(s[i], rec) == None {
          if i > 0 {
            assert CellTaken(s[i - 1 + 1], row, meant[i - 1]);
          }
        }
      }
    } else {
      var i :| 0 <= i < |s| && ColumnValue(s[i], row).Err?;
      CellRead(s[i - 1 + 1], row, meant[i - 1]);
      TakenReads(s[i - 1 + 1], row, meant[i - 1]);
    }
  }

  /** Where something is written it is of the column's kind; a decimal column has digits. */
  predicate KindsMatch(f: Field, row: RowIn, m: Meant) {
    && (f.ty.TDecimal? ==> f.ty.precision > 0)
    && (!IsNullIn(row, f.name) ==> IsWritten(row.vals[f.name], m) && SameKind(f.ty, m))
  }

  lemma TakenReads(f: Field, row: RowIn, m: Meant)
    ensures CellTaken(f, row, m) ==> IsNullIn(row, f.name) || Readable(f.ty, m)
  {
  }

  lemma KeyRead(f: Field, row: RowIn)
    requires f.name == "__rowkey"
    ensures ColumnValue(f, row).Ok?
  {
  }

  lemma KeyWritten(f: Field, rec: Record)
    requires !f.required && f.ty == TString
    ensures ColumnProblem(f, rec) == None
  {
  }

  lemma KindKept(f: Field, g: Field, row: RowIn, m: Meant)
    requires f.name == g.name && LegalPromotion(f.ty, g.ty) && KindsMatch(f, row, m)
    ensures KindsMatch(g, row, m)
  {
  }

  /** A row is appended exactly when every cell is taken. */
  lemma RowTaken(h: Header, front: seq<Entry>, row: RowIn, meant: seq<Meant>)
    requires Run(h, front).Ok? && |meant| == |h.fields|
    requires forall c :: 0 <= c < |h.fields| ==> KindsMatch(h.fields[c], row, meant[c])
    ensures |Run(h, front).value.schema| == |h.fields| + 1
    ensures Run(h, front + [Append([row])]).Ok? <==>
            forall c :: 0 <= c < |h.fields| ==> CellTaken(Run(h, front).value.schema[c + 1], row, meant[c])
  {
    hide Run, CellTaken, ToRecord, RecordProblem, KindsMatch, DistinctNames, LegalPromotion;
    var s := Run(h, front).value.schema;
    OneRowRun(h, front, row);
    BuiltOfRun(h, front);
    forall c | 0 <= c < |h.fields| ensures KindsMatch(s[c + 1], row, meant[c]) {
      KindKept(h.fields[c], s[c + 1], row, meant[c]);
    }
    RowTakenAt(s, row, meant);
  }

  /** The columns of a run and the header's, promotions aside. */
  lemma BuiltOfRun(h: Header, entries: seq<Entry>)
    requires Run(h, entries).Ok?
    ensures var s := Run(h, entries).value.schema;
            && DistinctNames(s) && |s| == |h.fields| + 1
            && s[0].name == "__rowkey" && !s[0].required && s[0].ty == TString
            && forall c :: 0 <= c < |h.fields| ==>
                 && s[c + 1].name == h.fields[c].name != "__rowkey" && s[c + 1].required == h.fields[c].required
                 && LegalPromotion(h.fields[c].ty, s[c + 1].ty)
  {
    hide Run, Invariant;
    RunInvariant(h, entries);
    DistinctOfRun(Run(h, entries).value);
    SchemaOfRun(h, entries);
    ColumnsOfRun(h, entries, 0);
    var s := Run(h, entries).value.schema;
    var all := BuildSchema(h.fields);
    assert s[0].required == all[0].required;
    forall c | 0 <= c < |h.fields|
      ensures s[c + 1].name == h.fields[c].name != "__rowkey" && s[c + 1].required == h.fields[c].required
      ensures LegalPromotion(h.fields[c].ty, s[c + 1].ty)
    {
      ColumnsOfRun(h, entries, c + 1);
      assert all[c + 1] == h.fields[c];
    }
  }

  /** What an append of one row comes to. */
  lemma OneRowRun(h: Header, front: seq<Entry>, row: RowIn)
    requires Run(h, front).Ok?
    ensures var s, run := Run(h, front).value.schema, Run(h, front + [Append([row])]);
            && (run.Ok? <==> ToRecord(s, row).Ok? && RecordProblem(s, ToRecord(s, row).value) == None)
            && (ToRecord(s, row).Err? ==> run == Err(Failure(ToRecord(s, row).error)))
            && (ToRecord(s, row).Ok? && RecordProblem(s, ToRecord(s, row).value).Some? ==>
                  run == Err(Failure(RecordProblem(s, ToRecord(s, row).value).value)))
  {
    hide Run, ToRecord, RecordProblem, Committed;
    RunSnoc(h, front, Append([row]));
    var s := Run(h, front).value.schema;
    OneRecord(s, row);
    if ToRecord(s, row).Ok? {
      OneWriteProblem(s, ToRecord(s, row).value);
    }
  }

  lemma OneWriteProblem(s: Schema, rec: Record)
    ensures WriteProblem(s, [rec]) == RecordProblem(s, rec)
  {
    hide RecordProblem;
    assert [rec][1..] == [];
  }

  /** The first cell that cannot be read decides the error: a struct, a list or a map, or an integer out of range. */
  lemma UnreadableCellRefused(h: Header, front: seq<Entry>, row: RowIn, c: nat)
    requires Run(h, front).Ok? && c < |h.fields| && h.fields[c].name in row.vals
    requires |Run(h, front).value.schema| == |h.fields| + 1 && ToRecord(Run(h, front).value.schema[..c + 1], row).Ok?
    ensures row.vals[h.fields[c].name].Nested? ==> Run(h, front + [Append([row])]) == Err(Failure(NestedScalar))
    ensures var cell, ty := row.vals[h.fields[c].name], Run(h, front).value.schema[c + 1].ty;
            forall n :: IsWritten(cell, AnInteger(n)) && ty in {TInt, TLong} && !Readable(ty, AnInteger(n)) ==>
                          Run(h, front + [Append([row])]) == Err(Failure(BadScalar(Itoa(n))))
  {
    hide Run, ToRecord, LegalPromotion, Readable, ColumnValue, DistinctNames, Itoa;
    var s := Run(h, front).value.schema;
    BuiltOfRun(h, front);
    OneRowRun(h, front, row);
    NestedCell(s[c + 1], row);
    if row.vals[h.fields[c].name].Nested? {
      FirstErrorWins(s, row, c + 1);
    }
    forall n | IsWritten(row.vals[h.fields[c].name], AnInteger(n)) && s[c + 1].ty in {TInt, TLong} && !Readable(s[c + 1].ty, AnInteger(n))
      ensures Run(h, front + [Append([row])]) == Err(Failure(BadScalar(Itoa(n))))
    {
      WideCell(s[c + 1], row, n);
      FirstErrorWins(s, row, c + 1);
    }
  }

  lemma NestedCell(f: Field, row: RowIn)
    requires f.name != "__rowkey" && f.name in row.vals
    ensures row.vals[f.name].Nested? ==> ColumnValue(f, row) == Err(NestedScalar)
  {
  }

  lemma WideCell(f: Field, row: RowIn, n: int)
    requires f.name != "__rowkey" && f.name in row.vals && IsWritten(row.vals[f.name], AnInteger(n))
    requires f.ty in {TInt, TLong} && !Readable(f.ty, AnInteger(n))
    ensures ColumnValue(f, row) == Err(BadScalar(Itoa(n)))
  {
    hide ParseInt, Itoa;
    ItoaRoundTrip(n);
  }

  lemma {:induction false} FirstErrorWins(s: Schema, row: RowIn, c: nat)
    requires c < |s| && ToRecord(s[..c], row).Ok? && ColumnValue(s[c], row).Err?
    ensures ToRecord(s, row) == Err(ColumnValue(s[c], row).error)
    decreases |s|
  {
    hide ColumnValue;
    var front := s[..|s| - 1];
    if c < |front| {
      assert front[..c] == s[..c];
      FirstErrorWins(front, row, c);
    } else {
      assert s[..c] == front;
    }
  }

  /** A row that reads is refused for the first column it cannot be written to, by name. */
  lemma UnwritableCellRefused(h: Header, front: seq<Entry>, row: RowIn, c: nat, m: Meant)
    requires Run(h, front).Ok? && c < |h.fields| && |Run(h, front).value.schema| == |h.fields| + 1
    requires ToRecord(Run(h, front).value.schema, row).Ok?
    requires RecordProblem(Run(h, front).value.schema[..c + 1], ToRecord(Run(h, front).value.schema, row).value) == None
    requires KindsMatch(Run(h, front).value.schema[c + 1], row, m)
    ensures var f := Run(h, front).value.schema[c + 1];
            && (IsNullIn(row, f.name) && f.required ==>
                  Run(h, front + [Append([row])]) == Err(Failure(NullRequired(h.fields[c].name))))
            && (!IsNullIn(row, f.name) && !HasRoom(f.ty, m) ==>
                  Run(h, front + [Append([row])]) == Err(Failure(WrongDecimal(h.fields[c].name))))
  {
    hide Run, ToRecord, ColumnValue, ColumnProblem, RecordProblem, IsWritten, IsNullIn, HasRoom, LegalPromotion, DistinctNames;
    BuiltOfRun(h, front);
    OneRowRun(h, front, row);
    var s := Run(h, front).value.schema;
    var rec := ToRecord(s, row).value;
    RecordCell(s, row, c + 1);
    ColumnsOfRun(h, front, c + 1);
    CellWritten(s[c + 1], row, m, rec);
    if ColumnProblem(s[c + 1], rec).Some? {
      FirstProblemWins(s, rec, c + 1);
    }
  }

  lemma {:induction false} FirstProblemWins(s: Schema, rec: Record, c: nat)
    requires c < |s| && RecordProblem(s[..c], rec) == None && ColumnProblem(s[c], rec).Some?
    ensures RecordProblem(s, rec) == ColumnProblem(s[c], rec)
  {
    hide ColumnProblem;
    if c > 0 {
      assert s[..c][0] == s[0] && s[..c][1..] == s[1..][..c - 1];
      FirstProblemWins(s[1..], rec, c - 1);
    }
  }

  // ----- promoted cells, as shown

  /** The cell of a column after a promotion, from the one before: a long is quoted, every other value stays. */
  predicate CellKept(from: PType, to: PType, before: ValueNode, after: ValueNode) {
    && before.ty == Word(from) && after.ty == Word(to)
    && if from == TInt && to == TLong
       then before.value.JNum? && before.value.x.scale == 0 && after.value == JStr(Itoa(before.value.x.unscaled))
       else after.value == before.value
  }

  lemma NodeKept(from: PType, to: PType, v: Value, w: Value)
    requires LegalPromotion(from, to) && HasType(from, v) && Kept(to, v, w)
    ensures CellKept(from, to, NodeOf(from, v), NodeOf(to, w))
  {
    TypeNameIsWord(from);
    TypeNameIsWord(to);
    hide TypeName, Word, PlainText, Itoa;
  }

  /**
   A schema change as a reader sees it at latest: row `i`, column `c` has its cell, under its label
   before and its position after, or has none, as it was, and shows the same value.
   */
  lemma PromotionShown(h: Header, front: seq<Entry>, changes: seq<Promotion>, i: nat, c: nat)
    requires Run(h, front + [Evolve(changes)]).Ok? && (UsableIds(h.fields) || !NoEvolve(front))
    requires Run(h, front).Ok? && i < |Run(h, front).value.live| && c <= |h.fields|
    ensures var l, k := Run(h, front).value, Run(h, front + [Evolve(changes)]).value;
            var x, y := Shown(l, Named("latest"), None), Shown(k, Named("latest"), None);
            && |l.schema| == |k.schema| == |h.fields| + 1
            && x.Some? && y.Some? && |x.value.decodedRows| == |y.value.decodedRows| == |l.live|
            && var before := Itoa(if c == 0 then 0 else if NoEvolve(front) then h.fields[c - 1].id else c);
               && (before in x.value.decodedRows[i] <==> Itoa(c) in y.value.decodedRows[i])
               && (before in x.value.decodedRows[i] ==>
                     CellKept(l.schema[c].ty, k.schema[c].ty, x.value.decodedRows[i][before], y.value.decodedRows[i][Itoa(c)]))
  {
    hide Run, NoEvolve, Shown, Invariant, UsableIds, LabelsApart, SchemaFields, CellKept, Kept, Widens, DistinctNames, Map, Itoa;
    var entries := front + [Evolve(changes)];
    EvolveLast(front, changes);
    PromotionKeepsRows(h, front, changes);
    var l, k := Run(h, front).value, Run(h, entries).value;
    RunInvariant(h, front);
    RunInvariant(h, entries);
    RunLabelsApart(h, front);
    RunLabelsApart(h, entries);
    ObserveShows(l, Named("latest"), None);
    ObserveShows(k, Named("latest"), None);
    EvolveWidens(h, front, changes);
    DistinctOfRun(k);
    LiveTyped(h, front, i);
    ColumnsOfRun(h, front, c);
    ColumnsOfRun(h, entries, c);
    CellsKept(l.schema, l.labels, l.live[i], k.schema, k.labels, k.live[i], c);
  }

  lemma LiveTyped(h: Header, entries: seq<Entry>, i: nat)
    requires Run(h, entries).Ok? && i < |Run(h, entries).value.live|
    ensures Typed(Run(h, entries).value.schema, Run(h, entries).value.live[i])
  {
    hide Run, Typed;
    RunTyped(h, entries);
    RunIsPlain(h, entries);
    assert Run(h, entries).value.live[i] in Run(h, entries).value.live;
  }

  lemma EvolveLast(front: seq<Entry>, changes: seq<Promotion>)
    ensures !NoEvolve(front + [Evolve(changes)])
  {
    assert (front + [Evolve(changes)])[|front|].Evolve?;
  }

  lemma EvolveWidens(h: Header, front: seq<Entry>, changes: seq<Promotion>)
    requires Run(h, front + [Evolve(changes)]).Ok?
    ensures Run(h, front).Ok? && Widens(Run(h, front).value.schema, Run(h, front + [Evolve(changes)]).value.schema)
  {
    RunSnoc(h, front, Evolve(changes));
    hide Run, Widens;
    RunInvariant(h, front);
    EvolveInvariant(Run(h, front).value, changes);
  }

  lemma CellsKept(a: Schema, la: Labels, r: Record, b: Schema, lb: Labels, q: Record, c: nat)
    requires Widens(a, b) && LabelsApart(a, la) && LabelsApart(b, lb) && c < |a| && DistinctNames(b) && Typed(a, r)
    requires q.Keys == r.Keys
    requires forall n :: n in r ==> TypeOf(b, n).Some? && Kept(TypeOf(b, n).value, r[n], q[n])
    ensures var x, y := DecodeColumns(a, la, r), DecodeColumns(b, lb, q);
            var before, after := Itoa(la[a[c].name]), Itoa(lb[b[c].name]);
            && (before in x <==> after in y)
            && (before in x ==> CellKept(a[c].ty, b[c].ty, x[before], y[after]))
  {
    hide DecodeColumns, Itoa, CellKept, Kept, LegalPromotion, HasType, NodeOf;
    DecodedCell(a, la, r, c);
    DecodedCell(b, lb, q, c);
    if a[c].name in r {
      SameNames(a, b);
      TypeOfColumn(a, c);
      TypeOfColumn(b, c);
      NodeKept(a[c].ty, b[c].ty, r[a[c].name], q[a[c].name]);
    }
  }

  lemma SameNames(a: Schema, b: Schema)
    requires Widens(a, b) && DistinctNames(b)
    ensures DistinctNames(a)
  {
  }

  // ----- which promotions are taken

  /** The widenings the table format allows, a type to itself included. */
  predicate MayBecome(from: PType, to: PType) {
    || from == to
    || (from == TInt && to == TLong)
    || (from == TFloat && to == TDouble)
    || match (from, to) { case (TDecimal(p, s), TDecimal(q, u)) => s == u && p <= q case _ => false }
  }

  /**
   A promotion of a header column is taken exactly when the format allows it, and then sets that
   column's type and nothing else; an id the header does not give is refused by its number.
   */
  lemma PromotionTaken(h: Header, front: seq<Entry>, j: nat, to: PType)
    requires Run(h, front).Ok? && j < |h.fields| && UsableIds(h.fields)
    ensures var run := Run(h, front + [Evolve([Promotion(h.fields[j].id, to)])]);
            var l := Run(h, front).value;
            && |l.schema| == |h.fields| + 1
            && (run.Ok? <==> MayBecome(l.schema[j + 1].ty, to))
            && (run.Ok? ==> run.value.schema == l.schema[j + 1 := l.schema[j + 1].(ty := to)])
            && (run.Err? ==> run == Err(Failure(IllegalPromotion(h.fields[j].name))))
  {
    var id, n := h.fields[j].id, h.fields[j].name;
    RunSnoc(h, front, Evolve([Promotion(id, to)]));
    RunInvariant(h, front);
    RunIsPlain(h, front);
    ColumnsOfRun(h, front, j + 1);
    var l := Run(h, front).value;
    DistinctOfRun(l);
    AuthoredNamesAt(h.fields, j + 1);
    TypeOfColumn(l.schema, j + 1);
    RetypedColumn(l.schema, j + 1, to);
    OneChange(l.schema, l.authored, id, to);
    hide Run, Invariant, AuthoredNames, TypeOf, RetypeFrom, ApplyPromotions;
  }

  lemma UnknownIdRefused(h: Header, front: seq<Entry>, id: int, to: PType)
    requires Run(h, front).Ok? && id != 0 && forall j :: 0 <= j < |h.fields| ==> h.fields[j].id != id
    ensures Run(h, front + [Evolve([Promotion(id, to)])]) == Err(Failure(UnknownFieldId(id)))
  {
    RunSnoc(h, front, Evolve([Promotion(id, to)]));
    RunIsPlain(h, front);
    if id in AuthoredNames(h.fields) {
      AuthoredNamesFrom(h.fields, id, AuthoredNames(h.fields)[id]);
    }
    hide Run, AuthoredNames;
  }

  lemma OneChange(s: Schema, authored: map<int, string>, id: int, to: PType)
    requires id in authored && TypeOf(s, authored[id]).Some?
    ensures ApplyPromotions(s, authored, [Promotion(id, to)]) ==
              if MayBecome(TypeOf(s, authored[id]).value, to) then Ok(RetypeFrom(s, authored[id], to))
              else Err(IllegalPromotion(authored[id]))
  {
    JavaGivesOne(s, authored, id, to, RetypeFrom(s, authored[id], to));
  }

  lemma {:induction false} RetypedColumn(s: Schema, i: nat, to: PType)
    requires DistinctNames(s) && i < |s|
    ensures RetypeFrom(s, s[i].name, to) == s[i := s[i].(ty := to)]
  {
    if i > 0 {
      RetypedColumn(s[1..], i - 1, to);
      assert s == [s[0]] + s[1..];
    }
  }

  // ----- what commits emit

  /** What the commit before reported for its snapshot holds its place in the history. */
  ghost predicate EmitsSnapshot(h: Header, front: seq<Entry>, e: Entry, operation: string, total: nat,
                                added: Option<nat>, deleted: Option<nat>, deletes: Option<nat>, files: seq<DeleteFileOut>)
  {
    && Run(h, front).Ok? && Run(h, front + [e]).Ok?
    && var l, k := Run(h, front).value, Run(h, front + [e]).value;
       && |k.commits| == |l.commits| + 1 && l.commits <= k.commits
       && k.commits[|l.commits|].out ==
            SnapshotOut(|l.commits|, if l.commits == [] then None else Some(|l.commits| - 1), operation,
                        Summary(total, added, deleted, deletes), files)
  }

  /** An append emits its rows as added, and no count that is zero. */
  lemma AppendEmits(h: Header, front: seq<Entry>, rows: seq<RowIn>)
    requires Run(h, front + [Append(rows)]).Ok?
    ensures Run(h, front).Ok?
    ensures var l := Run(h, front).value;
            EmitsSnapshot(h, front, Append(rows), "append", |l.stored| + |rows|, if rows == [] then None else Some(|rows|), None,
                          if l.deletes == 0 then None else Some(l.deletes), [])
  {
    RunSnoc(h, front, Append(rows));
    hide Run, ToRecords, WriteProblem;
  }

  /** A delete that hits a stored row emits one position-delete file. */
  lemma DeleteEmits(h: Header, front: seq<Entry>, p: Pred, i: nat)
    requires Run(h, front).Ok? && MatcherOf(p, Run(h, front).value.schema).Ok? && h.version == 2
    requires i < |Run(h, front).value.stored|
    requires Matches(MatcherOf(p, Run(h, front).value.schema).value, Run(h, front).value.stored[i])
    ensures var l := Run(h, front).value;
            EmitsSnapshot(h, front, Delete("position", Some(p)), "delete", |l.stored|, None, None,
                          Some(l.deletes + 1), [DeleteFileOut(1, "parquet")])
  {
    hide Run, MatcherOf, Matches, Filter, StepDelete;
    RunSnoc(h, front, Delete("position", Some(p)));
    RunVersion(h, front);
    DeleteCommits(Run(h, front).value, |front|, p, i);
  }

  lemma DeleteCommits(l: Logical, idx: nat, p: Pred, i: nat)
    requires l.version == 2 && MatcherOf(p, l.schema).Ok? && i < |l.stored|
    requires Matches(MatcherOf(p, l.schema).value, l.stored[i])
    ensures StepDelete(l, idx, "position", Some(p)).Ok?
    ensures var k := StepDelete(l, idx, "position", Some(p)).value;
            k.commits == l.commits + [Commit(l.schema, k.live,
              SnapshotOut(|l.commits|, if l.commits == [] then None else Some(|l.commits| - 1), "delete",
                          Summary(|l.stored|, None, None, Some(l.deletes + 1)), [DeleteFileOut(1, "parquet")]))]
  {
    hide MatcherOf, Matches, Filter;
    assert AnyMatch(MatcherOf(p, l.schema).value, l.stored);
    OneDeleteFile();
    hide DeleteFileOuts;
  }

  lemma OneDeleteFile()
    ensures DeleteFileOuts(1) == [DeleteFileOut(1, "parquet")]
  {
    assert DeleteFileOuts(0) == [];
  }

  /** A delete that hits no stored row changes nothing; on a table without a snapshot it fails. */
  lemma QuietDelete(h: Header, front: seq<Entry>, p: Pred)
    requires Run(h, front).Ok? && MatcherOf(p, Run(h, front).value.schema).Ok? && h.version <= 2
    requires forall r :: r in Run(h, front).value.stored ==> !Matches(MatcherOf(p, Run(h, front).value.schema).value, r)
    ensures Run(h, front + [Delete("position", Some(p))]) ==
              if Run(h, front).value.commits == [] then Err(Failure(NoSnapshot)) else Run(h, front)
  {
    RunSnoc(h, front, Delete("position", Some(p)));
    RunVersion(h, front);
    hide Run, MatcherOf, Matches, Filter;
  }

  /** A rewrite of two files or more emits the live rows as added and the stored ones as removed. */
  lemma RewriteEmits(h: Header, front: seq<Entry>)
    requires Run(h, front).Ok? && Run(h, front).value.files > 1
    ensures var l := Run(h, front).value;
            EmitsSnapshot(h, front, Rewrite, "replace", |l.live|, if l.live == [] then None else Some(|l.live|),
                          if l.stored == [] then None else Some(|l.stored|), if l.deletes == 0 then None else Some(l.deletes), [])
  {
    RunSnoc(h, front, Rewrite);
    hide Run;
  }

  /** An observation names the bind it makes, or else the point it was asked for. */
  lemma ObservePoint(h: Header, front: seq<Entry>, at: At, bind: Option<string>)
    requires Run(h, front + [Observe(at, bind)]).Ok?
    ensures Run(h, front).Ok?
    ensures var l, k := Run(h, front).value, Run(h, front + [Observe(at, bind)]).value;
            && |k.observations| == |l.observations| + 1
            && var obs := k.observations[|l.observations|];
               && obs.bind == bind
               && (bind.Some? ==> obs.at == AtName(bind.value))
               && (bind.None? && at.Ordinal? ==> obs.at == AtOrdinal(at.k))
               && (bind.None? && at.Named? ==> obs.at == AtName(at.name))
  {
    RunSnoc(h, front, Observe(at, bind));
    hide Run, SchemaFields, Map;
  }
}
