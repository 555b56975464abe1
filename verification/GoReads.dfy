/**
 The Go runner's `doObserve` on the same history: it finds the snapshot as the Java runner does, but
 labels columns by position in the schema of the observed snapshot, every time.
 */
module GoReads {
  import opened Wrappers
  import opened Seqs
  import opened Values
  import opened Emit
  import opened Replay
  import opened ReplayLaws
  import opened BindLaws

  /** What `doObserve` and `decodeScan` emit. */
  function GoObserve(l: Logical, at: At, bind: Option<string>): Result<Observation, Problem> {
    match ObserveSource(l, at)
    case Err(p) => Err(p)
    case Ok(source) =>
      var schema := SourceSchema(l, source);
      var labels := PositionalLabels(schema);
      match SchemaFields(schema, labels)
      case Err(p) => Err(p)
      case Ok(fields) =>
        Ok(Observation(AtEcho(at, bind), bind, fields, Map(Decoder(schema, labels), SourceRows(l, source))))
  }

  lemma PositionsLabelled(s: Schema)
    ensures SchemaFields(s, PositionalLabels(s)).Ok?
  {
    SchemaFieldsAt(s, PositionalLabels(s));
    PositionalLabelsKeys(s);
    forall i | 0 <= i < |s| ensures s[i].name in PositionalLabels(s) {
      assert HasColumn(s, s[i].name);
    }
  }

  /** Every schema an observe can read has the column positions of the current one. */
  lemma SourcePositions(l: Logical, source: Option<nat>)
    requires Invariant(l)
    ensures PositionalLabels(SourceSchema(l, source)) == PositionalLabels(l.schema)
  {
    SourceWidens(l, source);
    WidensPositionalLabels(SourceSchema(l, source), l.schema);
  }

  // ----- the two runners

  /** Under the invariant two labellings of one schema emit the same fields only if they are equal. */
  lemma FieldsTellLabels(s: Schema, la: Labels, lb: Labels)
    requires NamesColumns(la, s) && NamesColumns(lb, s)
    requires SchemaFields(s, la).Ok? && SchemaFields(s, la) == SchemaFields(s, lb)
    ensures la == lb
  {
    WidensRefl(s);
    SchemaFieldsTell(s, la, s, lb, s);
  }

  /**
   On the same history the two runners emit the same observation, at latest, at every ordinal and at
   every bind, exactly when the header numbers its columns 1, 2, 3, ... or a schema change has run.
   */
  lemma RunnersAgreeExactly(h: Header, entries: seq<Entry>, at: At, bind: Option<string>)
    requires Run(h, entries).Ok?
    ensures var l := Run(h, entries).value;
            && (GoObserve(l, at, bind).Ok? <==> Shown(l, at, bind).Some?)
            && (Shown(l, at, bind).Some? ==>
                  (GoObserve(l, at, bind).value == Shown(l, at, bind).value <==>
                     IdsArePositions(h.fields) || !NoEvolve(entries)))
  {
    hide Invariant, Step, StepObserve, SchemaFields, NoEvolve, IdsArePositions;
    var l := Run(h, entries).value;
    RunInvariant(h, entries);
    LabelsOfRun(h, entries);
    LabelsAgreeExactly(h.fields);
    ObserveInvariant(l, at, bind);
    if ObserveSource(l, at).Ok? {
      var source := ObserveSource(l, at).value;
      var schema := SourceSchema(l, source);
      PositionsLabelled(schema);
      SourceWidens(l, source);
      SourcePositions(l, source);
      SourceLabelled(l, source);
      NamesOf(l);
      NamesPersist(schema, l.schema, l.labels);
      PositionalLabelsKeys(schema);
      if SchemaFields(schema, l.labels) == SchemaFields(schema, PositionalLabels(schema)) {
        FieldsTellLabels(schema, l.labels, PositionalLabels(schema));
      }
    }
  }

  lemma NamesOf(l: Logical)
    requires Invariant(l)
    ensures NamesColumns(l.labels, l.schema)
  {
  }

  /**
   Go's binds are stable: an observe at latest binds `b`, and `back`, which never rebinds it, runs.
   Reading `b` shows the same schema exactly when no promotion lay between the last commit and the
   bind, whatever `back` appends, deletes, rewrites or promotes; and then the same rows.
   */
  lemma GoBindStability(h: Header, front: seq<Entry>, b: string, idx: nat, back: seq<Entry>)
    requires b != "latest" && NeverRebinds(back, b)
    requires Run(h, front).Ok? && Run(h, front).value.commits != []
    requires StepObserve(Run(h, front).value, Named("latest"), Some(b)).Ok?
    requires Resume(StepObserve(Run(h, front).value, Named("latest"), Some(b)).value, idx, back).Ok?
    ensures var l := Run(h, front).value;
            var k := Resume(StepObserve(l, Named("latest"), Some(b)).value, idx, back).value;
            var first, again := GoObserve(l, Named("latest"), Some(b)), GoObserve(k, Named(b), None);
            && first.Ok? && again.Ok?
            && (first.value.icebergSchema == again.value.icebergSchema <==> SchemaSettled(l))
            && (first.value.icebergSchema == again.value.icebergSchema ==>
                  first.value.decodedRows == again.value.decodedRows)
  {
    hide Invariant, Step, StepObserve, SchemaFields;
    var l := Run(h, front).value;
    RunInvariant(h, front);
    RunLastCommit(h, front);
    ObserveInvariant(l, Named("latest"), Some(b));
    var bound := StepObserve(l, Named("latest"), Some(b)).value;
    BindPersists(bound, idx, back, b);
    var k := Resume(bound, idx, back).value;
    var c := l.commits[|l.commits| - 1];
    assert k.commits[|l.commits| - 1] == c;
    assert ObserveSource(k, Named(b)) == Ok(Some(|l.commits| - 1));
    PositionsLabelled(l.schema);
    PositionsLabelled(c.schema);
    GoSettledTells(l, c);
  }

  lemma GoSettledTells(l: Logical, c: Commit)
    requires Invariant(l) && LastCommitHolds(l)
    requires l.commits != [] && c == l.commits[|l.commits| - 1]
    ensures PositionalLabels(c.schema) == PositionalLabels(l.schema)
    ensures SchemaFields(l.schema, PositionalLabels(l.schema)) == SchemaFields(c.schema, PositionalLabels(c.schema)) <==>
            SchemaSettled(l)
    ensures SchemaSettled(l) ==> l.live == c.rows
  {
    WidensPositionalLabels(c.schema, l.schema);
    PositionsLabelled(l.schema);
    PositionsLabelled(c.schema);
    PositionalLabelsKeys(l.schema);
    if SchemaSettled(l) {
      ProjectIdentity(c.schema, c.rows);
    }
    if SchemaFields(l.schema, PositionalLabels(l.schema)) == SchemaFields(c.schema, PositionalLabels(c.schema)) {
      SchemaFieldsTell(l.schema, PositionalLabels(l.schema), c.schema, PositionalLabels(c.schema), l.schema);
    }
  }
}
