/** One concrete log for each promise the code does not keep, beside the lemma that says when it does. */
module Counterexamples {
  import opened Wrappers
  import opened Text
  import opened Seqs
  import opened Values
  import opened Predicates
  import opened Emit
  import opened Replay
  import opened ReplayLaws
  import opened BindLaws
  import AppendLaws
  import DecodeLaws
  import GoReads
  import GoNames
  import L = GenLog
  import D = Draws
  import E = EndToEnd

  // ----- a count that is not the summary's

  const KEYED := Header(2, [])

  const ONE_ROW: seq<RowIn> := [RowIn(Some("a"), map[])]

  const EVERYTHING := Pred("true", "", None, [], [], None)

  function KeyRecord(): Record {
    map[ROW_KEY := StrV("a")]
  }

  /** Appending the row of key a to any table whose columns may all be null but the key. */
  lemma {:induction false} KeyRowAppends(s: Schema)
    requires forall i :: 0 <= i < |s| ==> (s[i].name == ROW_KEY <==> i == 0)
    requires s != [] && forall i :: 0 <= i < |s| ==> !s[i].required
    ensures ToRecords(s, ONE_ROW) == Ok([KeyRecord()]) && WriteProblem(s, [KeyRecord()]) == None
  {
    KeyColumns(s, |s|);
    assert s[..|s|] == s;
    assert ONE_ROW[..0] == [];
    assert [] + [KeyRecord()] == [KeyRecord()];
    RecordProblemAt(s, KeyRecord());
  }

  lemma KeyColumn(f: Field)
    ensures ColumnValue(f, ONE_ROW[0]) == Ok(if f.name == ROW_KEY then Some(StrV("a")) else None)
  {
  }

  lemma {:induction false} KeyColumns(s: Schema, k: nat)
    requires k <= |s| && forall i :: 0 <= i < |s| ==> (s[i].name == ROW_KEY <==> i == 0)
    ensures ToRecord(s[..k], ONE_ROW[0]) == Ok(if k == 0 then map[] else KeyRecord())
  {
    if k > 0 {
      KeyColumns(s, k - 1);
      assert s[..k][..k - 1] == s[..k - 1] && s[..k][k - 1] == s[k - 1];
      KeyColumn(s[k - 1]);
      hide ColumnValue;
    }
  }

  lemma KeyLogRuns(h: Header)
    requires DistinctNames(BuildSchema(h.fields)) && forall i :: 0 <= i < |h.fields| ==> !h.fields[i].required
    ensures Run(h, [Append(ONE_ROW)]).Ok?
    ensures var l := Run(h, [Append(ONE_ROW)]).value;
            && Invariant(l) && l.live == [KeyRecord()] && l.commits != [] && l.version == h.version
            && l.schema == BuildSchema(h.fields) && l.authored == AuthoredNames(h.fields)
  {
    hide Invariant, Step, StepAppend, ToRecords, WriteProblem;
    var l := Start(h).value;
    StartInvariant(h);
    KeyFirst(h.fields);
    KeyRowAppends(l.schema);
    AppendRuns(l, ONE_ROW, [KeyRecord()]);
    AppendIsStep(l, 0);
    assert [] + [Append(ONE_ROW)] == [Append(ONE_ROW)];
    RunSnoc(h, [], Append(ONE_ROW));
    assert [] + [KeyRecord()] == [KeyRecord()];
    RunIsPlain(h, [Append(ONE_ROW)]);
  }

  lemma {:induction false} KeyFirst(fields: Schema)
    requires DistinctNames(BuildSchema(fields)) && forall i :: 0 <= i < |fields| ==> !fields[i].required
    ensures var s := BuildSchema(fields);
            && s != [] && (forall i :: 0 <= i < |s| ==> (s[i].name == ROW_KEY <==> i == 0))
            && forall i :: 0 <= i < |s| ==> !s[i].required
  {
    var s := BuildSchema(fields);
    assert s[0].name == ROW_KEY;
  }

  lemma AppendIsStep(l: Logical, idx: nat)
    ensures Step(l, idx, Append(ONE_ROW)) == StepAppend(l, ONE_ROW)
  {
  }

  lemma DeleteIsStep(l: Logical, idx: nat)
    ensures Step(l, idx, Delete("position", Some(EVERYTHING))) == StepDelete(l, idx, "position", Some(EVERYTHING))
  {
  }

  /** One append, one delete of everything: no row is left, and the summary still counts one. */
  lemma CountFails()
    ensures var run := Run(KEYED, [Append(ONE_ROW)] + [Delete("position", Some(EVERYTHING))]);
            && run.Ok? && run.value.commits != []
            && |run.value.live| == 0 && run.value.commits[|run.value.commits| - 1].out.summary.totalRecords != 0
  {
    hide Invariant, Step, StepDelete;
    var log := [Append(ONE_ROW)] + [Delete("position", Some(EVERYTHING))];
    KeyLogRuns(KEYED);
    var l := Run(KEYED, [Append(ONE_ROW)]).value;
    DeleteRuns(l, 1, "position", EVERYTHING, MTrue);
    DeleteIsStep(l, 1);
    RunSnoc(KEYED, [Append(ONE_ROW)], Delete("position", Some(EVERYTHING)));
    FilterAll(Survives(MTrue), l.live);
    assert log[..1] == [Append(ONE_ROW)];
    RunIsPlain(KEYED, [Append(ONE_ROW)]);
    assert Matches(MTrue, Plain(KEYED, log[..1]).rows[0]);
    assert HitsAt(KEYED, log, 1);
    CountEqualsSummary(KEYED, log);
  }

  // ----- labels

  /** A header that gives its one user column the id 5. */
  const LABELLED := Header(2, [Field(5, "n", TInt, false)])

  lemma LabelledHeader()
    ensures DistinctNames(BuildSchema(LABELLED.fields)) && !IdsArePositions(LABELLED.fields)
    ensures BuildSchema(LABELLED.fields) == [Field(ROW_KEY_FIELD_ID, ROW_KEY, TString, false), Field(5, "n", TInt, false)]
  {
    assert LABELLED.fields[0].id == 5;
  }

  /** Before any entry the two runners already label the column differently. */
  lemma RunnersDisagree()
    ensures Run(LABELLED, []).Ok?
    ensures var l := Run(LABELLED, []).value;
            && GoReads.GoObserve(l, Named("latest"), None).Ok? && Shown(l, Named("latest"), None).Some?
            && GoReads.GoObserve(l, Named("latest"), None).value != Shown(l, Named("latest"), None).value
  {
    LabelledHeader();
    hide Shown, IdsArePositions;
    GoReads.RunnersAgreeExactly(LABELLED, [], Named("latest"), None);
    LatestShown(LABELLED, []);
  }

  lemma LatestShown(h: Header, entries: seq<Entry>)
    requires Run(h, entries).Ok?
    ensures Shown(Run(h, entries).value, Named("latest"), None).Some?
  {
    hide Run, SchemaFields, Invariant;
    RunInvariant(h, entries);
    ObserveInvariant(Run(h, entries).value, Named("latest"), None);
  }

  function Widening(): Entry {
    Evolve([Promotion(5, TLong)])
  }

  lemma WideningRuns(l: Logical, idx: nat)
    requires l.schema == BuildSchema(LABELLED.fields) && l.authored == AuthoredNames(LABELLED.fields)
    ensures Resume(l, idx, [Widening()]).Ok? && Resume(l, idx, [Widening()]) == Step(l, idx, Widening())
    ensures var k := Step(l, idx, Widening()).value;
            && k.schema == [Field(ROW_KEY_FIELD_ID, ROW_KEY, TString, false), Field(5, "n", TLong, false)]
            && k.commits == l.commits && k.files == l.files && k.authored == l.authored
  {
    LabelledHeader();
    WideningApplies();
    hide ApplyPromotions, RetypeFrom, AuthoredNames, BuildSchema, Map, Project, PositionalLabels;
    assert [Widening()][1..] == [];
    assert Resume(Step(l, idx, Widening()).value, idx + 1, []) == Step(l, idx, Widening());
  }

  lemma WideningApplies()
    ensures ApplyPromotions(BuildSchema(LABELLED.fields), AuthoredNames(LABELLED.fields), [Promotion(5, TLong)]) ==
              Ok([Field(ROW_KEY_FIELD_ID, ROW_KEY, TString, false), Field(5, "n", TLong, false)])
  {
    LabelledHeader();
    var s, authored := BuildSchema(LABELLED.fields), AuthoredNames(LABELLED.fields);
    assert 5 in authored && authored[5] == "n";
    var rest := s[1..];
    assert rest == [Field(5, "n", TInt, false)] && rest[1..] == [];
    assert TypeOf(rest, "n") == Some(TInt);
    assert RetypeFrom(rest, "n", TLong) == [Field(5, "n", TLong, false)] + [];
    var t := RetypeFrom(s, "n", TLong);
    assert t == [s[0]] + ([Field(5, "n", TLong, false)] + []);
    assert t == [Field(ROW_KEY_FIELD_ID, ROW_KEY, TString, false), Field(5, "n", TLong, false)];
    assert TypeOf(s, "n") == Some(TInt);
    GoNames.JavaGivesOne(s, authored, 5, TLong, t);
  }

  /** A name bound after one append reads under other labels once the column is promoted. */
  lemma BindMoves()
    ensures var run := Run(LABELLED, [Append(ONE_ROW)]);
            && run.Ok? && StepObserve(run.value, Named("latest"), Some("b")).Ok?
            && var bound := StepObserve(run.value, Named("latest"), Some("b")).value;
               && Resume(bound, 2, [Widening()]).Ok?
               && var first, again := Shown(run.value, Named("latest"), Some("b")), Shown(Resume(bound, 2, [Widening()]).value, Named("b"), None);
                  first.Some? && again.Some? && first.value.icebergSchema != again.value.icebergSchema
  {
    hide Run, StepObserve, Shown, Resume, Step, Invariant, BuildSchema, AuthoredNames, DistinctNames;
    LabelledHeader();
    KeyLogRuns(LABELLED);
    var l := Run(LABELLED, [Append(ONE_ROW)]).value;
    ObserveInvariant(l, Named("latest"), Some("b"));
    WideningRuns(StepObserve(l, Named("latest"), Some("b")).value, 2);
    assert !NoEvolve([Widening()]) by {
      assert [Widening()][0].Evolve?;
    }
    assert NoEvolve([Append(ONE_ROW)]) && NeverRebinds([Widening()], "b");
    BindStability(LABELLED, [Append(ONE_ROW)], "b", 2, [Widening()]);
  }

  // ----- two appends

  lemma TwiceRuns(h: Header)
    requires DistinctNames(BuildSchema(h.fields)) && forall i :: 0 <= i < |h.fields| ==> !h.fields[i].required
    ensures Run(h, [Append(ONE_ROW), Append(ONE_ROW)]).Ok?
    ensures var l := Run(h, [Append(ONE_ROW), Append(ONE_ROW)]).value;
            && l.schema == BuildSchema(h.fields) && l.authored == AuthoredNames(h.fields) && l.files == 2
            && |l.commits| == 2 && l.commits[0].schema == l.commits[1].schema == l.schema
            && l.commits[0].rows == [KeyRecord()] && l.commits[1].rows == [KeyRecord()] + [KeyRecord()]
  {
    var l := Start(h).value;
    KeyFirst(h.fields);
    KeyRowAppends(l.schema);
    AppendLaws.TwoAppends(l, 0, ONE_ROW, ONE_ROW);
    assert [] + [Append(ONE_ROW), Append(ONE_ROW)] == [Append(ONE_ROW), Append(ONE_ROW)];
    RunSplit(h, [], [Append(ONE_ROW), Append(ONE_ROW)]);
    hide Step, ToRecords, WriteProblem, Resume, Run, BuildSchema, AuthoredNames;
    assert AppendLaws.Records(l.schema, ONE_ROW) == [KeyRecord()];
    assert [] + [KeyRecord()] == [KeyRecord()];
  }

  /** A name bound while reading the first of two commits shows the second: another row. */
  lemma BindReadsAnother()
    ensures var run := Run(KEYED, [Append(ONE_ROW), Append(ONE_ROW)]);
            && run.Ok? && StepObserve(run.value, Ordinal(0), Some("b")).Ok?
            && var first := Shown(run.value, Ordinal(0), Some("b"));
               var again := Shown(StepObserve(run.value, Ordinal(0), Some("b")).value, Named("b"), None);
               first.Some? && again.Some? && !SameBag(first.value.decodedRows, again.value.decodedRows)
  {
    TwiceRuns(KEYED);
    hide Run, StepObserve, Shown, Step, Invariant, AuthoredNames, BuildSchema;
    var front := [Append(ONE_ROW), Append(ONE_ROW)];
    var l := Run(KEYED, front).value;
    RunInvariant(KEYED, front);
    ObserveInvariant(l, Ordinal(0), Some("b"));
    DecodeLaws.BindIgnoresPoint(KEYED, front, Ordinal(0), "b", 3, []);
    assert UsableIds(KEYED.fields);
    assert |multiset(l.commits[0].rows)| == 1 && |multiset(l.commits[1].rows)| == 2;
  }

  /** After two appends and a promotion, a rewrite changes what the next bind shows. */
  lemma RewriteMoves()
    ensures var run := Run(LABELLED, [Append(ONE_ROW), Append(ONE_ROW)] + [Widening()]);
            && run.Ok? && StepRewrite(run.value).Ok?
            && var with := StepObserve(StepRewrite(run.value).value, Named("latest"), Some("b"));
               var without := StepObserve(run.value, Named("latest"), Some("b"));
               && with.Ok? && without.Ok?
               && var x, y := Shown(with.value, Named("b"), None), Shown(without.value, Named("b"), None);
                  x.Some? && y.Some? && x.value.icebergSchema != y.value.icebergSchema
  {
    LabelledHeader();
    TwiceRuns(LABELLED);
    var front := [Append(ONE_ROW), Append(ONE_ROW)];
    var l := Run(LABELLED, front).value;
    WideningRuns(l, 2);
    hide Run, StepObserve, Shown, StepRewrite, Resume, BuildSchema, AuthoredNames;
    RunSnoc(LABELLED, front, Widening());
    RewriteRebinds(LABELLED, front + [Widening()], "b");
  }

  // ----- ids after a schema change

  /** After one promotion Java still takes the header's id 5, which Go no longer knows. */
  lemma IdsMove()
    ensures var run := Run(LABELLED, [Widening()]);
            && run.Ok? && ApplyPromotions(run.value.schema, run.value.authored, [Promotion(5, TLong)]).Ok?
            && forall t :: !GoNames.GoGives(run.value.schema, run.value.labels, [Promotion(5, TLong)], t)
  {
    LabelledHeader();
    var l := Start(LABELLED).value;
    WideningRuns(l, 0);
    assert [] + [Widening()] == [Widening()];
    RunSnoc(LABELLED, [], Widening());
    LabelsOfRun(LABELLED, [Widening()]);
    var k := Run(LABELLED, [Widening()]).value;
    assert !NoEvolve([Widening()]) by {
      assert [Widening()][0].Evolve?;
    }
    WidenedIds(k.labels, k.authored);
    hide Run, GoNames.GoGives, ApplyPromotions, PositionalLabels, AuthoredNames;
    GoNames.JavaGivesOne(k.schema, k.authored, 5, TLong, RetypeFrom(k.schema, "n", TLong));
    assert k.schema[1..][0].name == "n";
    forall t ensures !GoNames.GoGives(k.schema, k.labels, [Promotion(5, TLong)], t) {
      GoNames.GoGivesOne(k.schema, k.labels, 5, TLong, t);
    }
  }

  lemma WidenedIds(labels: Labels, authored: map<int, string>)
    requires labels == PositionalLabels(BuildSchema(LABELLED.fields)) && authored == AuthoredNames(LABELLED.fields)
    ensures 5 in authored && authored[5] == "n"
    ensures forall n :: !GoNames.GoResolves(labels, 5, n)
  {
    LabelledHeader();
    GoNames.PositionalColumns(LABELLED.fields);
    forall n ensures !GoNames.GoResolves(labels, 5, n) {
      if n in labels {
        var c := GoNames.ColumnNamed(LABELLED.fields, n);
        assert GoNames.GoResolves(labels, c, GoNames.ColumnName(LABELLED.fields, c));
      }
    }
  }

  // ----- a fuzzer's alarm at version 1

  function SeedRow(): L.GenRow {
    L.GenRow("r1", map["id" := L.TypedVal("long", "1", false)])
  }

  /** An append and a delete of its row: at version 1 the run fails, which the fuzzer calls an invalid spec. */
  lemma VersionOneAlarm()
    ensures var ops := [L.AppendOp([SeedRow()])] + [L.DeleteOp("id", L.TypedVal("long", "1", false))];
            && L.MeaningfulLog(D.SEED_SCHEMA, ops)
            && Run(Header(1, E.FIELDS), E.LowerOps(ops)) == Err(Failure(CommitRejected))
  {
    var first := [L.AppendOp([SeedRow()])];
    var delete := L.DeleteOp("id", L.TypedVal("long", "1", false));
    SeedRowFits();
    OneRowLog(D.SEED_SCHEMA, SeedRow());
    hide L.ReplayOps, L.MeaningfulLog, L.RowFits, Run;
    var g := L.ReplayOps(D.SEED_SCHEMA, first);
    assert L.Hit(g.schema, "id", delete.value, g.live[0]);
    L.MeaningfulSnoc(D.SEED_SCHEMA, first, delete);
    assert (first + [delete])[1] == delete;
    E.LogRefused(1, first + [delete]);
  }

  lemma SeedRowFits()
    ensures L.RowFits(D.SEED_SCHEMA, SeedRow())
    ensures L.TypeNamed(D.SEED_SCHEMA, "id") == "long" && ParseInt("1").Some?
  {
    assert Itoa(1) == "1";
    ItoaRoundTrip(1);
    assert D.SEED_SCHEMA[0].name == "id";
    assert L.Declares(D.SEED_SCHEMA, "id");
    assert L.TypeNamed(D.SEED_SCHEMA, "id") == "long";
  }

  // ----- a tag that is written through

  const INT_COLUMN := [L.GenField(1, "id", "long", true), L.GenField(2, "n", "int", true)]

  function OneCell(): L.GenRow {
    L.GenRow("r1", map["id" := L.TypedVal("long", "1", false), "n" := L.TypedVal("int", "5", false)])
  }

  lemma OneCellFits()
    ensures L.RowFits(INT_COLUMN, OneCell())
  {
    assert Itoa(1) == "1" && Itoa(5) == "5";
    ItoaRoundTrip(1);
    ItoaRoundTrip(5);
    assert INT_COLUMN[0].name == "id" && INT_COLUMN[1].name == "n";
    assert L.Declares(INT_COLUMN, "id") && L.Declares(INT_COLUMN, "n");
    assert INT_COLUMN[1..][0].name == "n";
    assert L.TypeNamed(INT_COLUMN, "id") == "long" && L.TypeNamed(INT_COLUMN, "n") == "int";
  }

  /** An int cell is appended, its column promoted: the finished log shows the append with a long. */
  lemma TagWrittenThrough()
    ensures var drawn := [L.AppendOp([OneCell()])] + [L.PromoteOp(2, "long")];
            && L.MeaningfulLog(INT_COLUMN, drawn)
            && L.LogsCell(drawn, 0, 0, "n") && L.LogsCell(L.Emitted(INT_COLUMN, drawn), 0, 0, "n")
            && drawn[0].rows[0].vals["n"].tag == "int"
            && L.Emitted(INT_COLUMN, drawn)[0].rows[0].vals["n"].tag != "int"
  {
    var first, drawn := [L.AppendOp([OneCell()])], [L.AppendOp([OneCell()])] + [L.PromoteOp(2, "long")];
    OneCellFits();
    OneRowLog(INT_COLUMN, OneCell());
    IntColumn();
    hide L.ReplayOps, L.MeaningfulLog, L.FieldIndex, L.TypeNamed, L.RowFits, L.Emitted;
    L.MeaningfulSnoc(INT_COLUMN, first, L.PromoteOp(2, "long"));
    assert drawn[..1] == first;
    assert L.Keys([OneCell()])[0] == "r1";
    assert L.PromotesLive(INT_COLUMN, drawn, 1, "r1", "n");
    assert L.PromotedWhileLive(INT_COLUMN, drawn, 0, "r1", "n");
    L.TagKeptExactly(INT_COLUMN, drawn, 0, 0, "n");
  }

  /** A log of one appended row is meaningful and leaves that row. */
  lemma OneRowLog(schema: seq<L.GenField>, r: L.GenRow)
    requires L.RowFits(schema, r)
    ensures L.MeaningfulLog(schema, [L.AppendOp([r])])
    ensures var g := L.ReplayOps(schema, [L.AppendOp([r])]);
            g.schema == schema && g.live == [r] && g.keys == {r.rowKey} && g.binds == {}
  {
    var append := L.AppendOp([r]);
    hide L.RowFits;
    L.ReplayLast(schema, []);
    L.ReplayLast(schema, [append]);
    assert [append][..0] == [];
    assert [] + [r] == [r];
    assert L.Keys([r]) == [r.rowKey];
    forall i | 0 <= i < 1 ensures L.Meaningful(L.ReplayOps(schema, [append][..i]), [append][i]) {
    }
  }

  lemma IntColumn()
    ensures L.DistinctFields(INT_COLUMN)
    ensures L.FieldIndex(INT_COLUMN, 2) == Some(1) && "long" in L.LegalTargets(INT_COLUMN[1].ty)
  {
    assert INT_COLUMN[1..][0].id == 2;
    assert INT_COLUMN[0].name != INT_COLUMN[1].name;
  }
}
