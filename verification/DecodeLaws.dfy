/**
 Emission loses nothing: `Decode.node` writes each value so that it can be read back, and
 `Decode.row` keeps records apart, so judges that compare decoded rows compare the stored records.
 */
module DecodeLaws {
  import opened Wrappers
  import opened Text
  import opened Seqs
  import opened Values
  import opened Predicates
  import opened Emit
  import opened Numerals
  import opened Replay
  import opened ReplayLaws
  import opened BindLaws

  // ----- values

  /** Whatever is emitted as text, a long, a decimal or a string, parses back to the value. */
  lemma EmittedTextParses(ty: PType, v: Value)
    requires HasType(ty, v) && NodeOf(ty, v).value.JStr?
    ensures ParseValue(ty, NodeOf(ty, v).value.s) == Some(v)
  {
    match v
    case LongV(n) => ItoaRoundTrip(n);
    case DecV(x) => PlainTextRoundTrip(x);
    case _ =>
  }

  /** Two values of one column are emitted alike exactly when they are equal. */
  lemma NodeTells(ty: PType, v: Value, w: Value)
    requires HasType(ty, v) && HasType(ty, w)
    ensures NodeOf(ty, v) == NodeOf(ty, w) <==> v == w
  {
    if NodeOf(ty, v) == NodeOf(ty, w) && NodeOf(ty, v).value.JStr? {
      EmittedTextParses(ty, v);
      EmittedTextParses(ty, w);
    }
  }

  // ----- rows

  lemma {:induction false} DecodedKeys(s: Schema, labels: Labels, r: Record, k: string)
    requires k in DecodeColumns(s, labels, r)
    ensures exists i :: 0 <= i < |s| && s[i].name in labels && k == Itoa(labels[s[i].name])
  {
    var front, last := s[..|s| - 1], |s| - 1;
    if k in DecodeColumns(front, labels, r) {
      DecodedKeys(front, labels, r, k);
      var i :| 0 <= i < |front| && front[i].name in labels && k == Itoa(labels[front[i].name]);
      assert s[i] == front[i];
    } else {
      assert s[last].name in labels && k == Itoa(labels[s[last].name]);
    }
  }

  /** The cell under a column's label is that column's value, and is absent exactly when it is null. */
  lemma {:induction false} DecodedCell(s: Schema, labels: Labels, r: Record, i: nat)
    requires LabelsApart(s, labels) && i < |s|
    ensures var row, key := DecodeColumns(s, labels, r), Itoa(labels[s[i].name]);
            && (key in row <==> s[i].name in r)
            && (key in row ==> row[key] == NodeOf(s[i].ty, r[s[i].name]))
  {
    hide Itoa, NodeOf;
    var front, last := s[..|s| - 1], |s| - 1;
    var key := Itoa(labels[s[i].name]);
    if i < last {
      assert LabelsApart(front, labels) && front[i] == s[i];
      DecodedCell(front, labels, r, i);
      ItoaInjective(labels[s[i].name], labels[s[last].name]);
    } else if key in DecodeColumns(front, labels, r) {
      DecodedKeys(front, labels, r, key);
      var j :| 0 <= j < |front| && front[j].name in labels && key == Itoa(labels[front[j].name]);
      assert front[j] == s[j];
      ItoaInjective(labels[s[j].name], labels[s[last].name]);
    }
  }

  lemma RowTellsColumn(s: Schema, labels: Labels, r: Record, q: Record, n: string)
    requires LabelsApart(s, labels) && Typed(s, r) && Typed(s, q)
    requires DecodeColumns(s, labels, r) == DecodeColumns(s, labels, q)
    ensures n in r ==> n in q && q[n] == r[n]
  {
    if n in r {
      var i := ColumnOf(s, n);
      DecodedCell(s, labels, r, i);
      DecodedCell(s, labels, q, i);
      NodeTells(s[i].ty, r[n], q[n]);
    }
  }

  /** Two records are decoded to the same row exactly when they are the same record. */
  lemma RowTells(s: Schema, labels: Labels, r: Record, q: Record)
    requires LabelsApart(s, labels) && Typed(s, r) && Typed(s, q)
    ensures DecodeColumns(s, labels, r) == DecodeColumns(s, labels, q) <==> r == q
  {
    if DecodeColumns(s, labels, r) == DecodeColumns(s, labels, q) {
      forall n ensures n in r <==> n in q ensures n in r ==> r[n] == q[n] {
        RowTellsColumn(s, labels, r, q, n);
        RowTellsColumn(s, labels, q, r, n);
      }
    }
  }

  ghost predicate AllTyped(s: Schema, rows: seq<Record>) {
    forall r :: r in rows ==> Typed(s, r)
  }

  /** Bags of decoded rows are equal exactly when the bags of records are. */
  lemma DecodedBagsTell(s: Schema, labels: Labels, a: seq<Record>, b: seq<Record>)
    requires LabelsApart(s, labels) && AllTyped(s, a) && AllTyped(s, b)
    ensures SameBag(Map(Decoder(s, labels), a), Map(Decoder(s, labels), b)) <==> SameBag(a, b)
  {
    if SameBag(a, b) {
      MapBag(Decoder(s, labels), a, b);
    }
    if SameBag(Map(Decoder(s, labels), a), Map(Decoder(s, labels), b)) {
      forall x, y | x in a && y in b && Decoder(s, labels)(x) == Decoder(s, labels)(y) ensures x == y {
        RowTells(s, labels, x, y);
      }
      BagsApart(Decoder(s, labels), a, b);
    }
  }

  // ----- the rows of a run are typed

  /** A record built for the columns `s[..k]` is typed by the whole schema. */
  lemma {:induction false} ToRecordTyped(s: Schema, k: nat, row: RowIn)
    requires DistinctNames(s) && k <= |s| && ToRecord(s[..k], row).Ok?
    requires forall i :: 0 <= i < |s| && s[i].name == ROW_KEY ==> s[i].ty == TString
    ensures Typed(s, ToRecord(s[..k], row).value)
  {
    if k > 0 {
      assert s[..k][..k - 1] == s[..k - 1];
      ToRecordTyped(s, k - 1, row);
      TypeOfColumn(s, k - 1);
      var f := s[k - 1];
      if f.name != ROW_KEY && f.name in row.vals && ColumnValue(f, row).value.Some? {
        ParsedHasType(row.vals[f.name], f.ty);
      }
    }
  }

  lemma {:induction false} ToRecordsTyped(s: Schema, rows: seq<RowIn>)
    requires DistinctNames(s) && ToRecords(s, rows).Ok?
    requires forall i :: 0 <= i < |s| && s[i].name == ROW_KEY ==> s[i].ty == TString
    ensures AllTyped(s, ToRecords(s, rows).value)
  {
    if rows != [] {
      ToRecordsTyped(s, rows[..|rows| - 1]);
      assert s[..|s|] == s;
      ToRecordTyped(s, |s|, rows[|rows| - 1]);
    }
  }

  lemma WidenedHasType(a: PType, b: PType, v: Value)
    requires LegalPromotion(a, b) && HasType(a, v)
    ensures HasType(b, Widen(b, v))
  {
  }

  lemma ProjectTyped(a: Schema, b: Schema, r: Record)
    requires Widens(a, b) && Typed(a, r)
    ensures Typed(b, Project(b)(r))
  {
    forall n | n in r ensures TypeOf(b, n).Some? && HasType(TypeOf(b, n).value, Widen(TypeOf(b, n).value, r[n])) {
      WidensTypes(a, b, n);
      WidenedHasType(TypeOf(a, n).value, TypeOf(b, n).value, r[n]);
    }
  }

  /** The row-key column keeps its type, since no promotion of a string is legal. */
  predicate KeyIsText(s: Schema) {
    forall i :: 0 <= i < |s| && s[i].name == ROW_KEY ==> s[i].ty == TString
  }

  ghost predicate PlainTyped(p: PlainState) {
    KeyIsText(p.schema) && AllTyped(p.schema, p.rows)
  }

  lemma PlainStepTyped(p: PlainState, authored: map<int, string>, e: Entry)
    requires DistinctNames(p.schema) && PlainTyped(p)
    ensures PlainTyped(PlainStep(p, authored, e))
  {
    match e {
      case Append(rows) =>
        if ToRecords(p.schema, rows).Ok? {
          ToRecordsTyped(p.schema, rows);
        }
      case Delete(_, pred) =>
        if pred.Some? && MatcherOf(pred.value, p.schema).Ok? {
          var m := MatcherOf(pred.value, p.schema).value;
          forall r | r in Filter(Survives(m), p.rows) ensures r in p.rows {
            FilterIn(Survives(m), p.rows, r);
          }
        }
      case Evolve(changes) =>
        if ApplyPromotions(p.schema, authored, changes).Ok? {
          EvolveTyped(p, authored, changes);
        }
      case _ =>
    }
  }

  lemma EvolveTyped(p: PlainState, authored: map<int, string>, changes: seq<Promotion>)
    requires PlainTyped(p) && ApplyPromotions(p.schema, authored, changes).Ok?
    ensures var s := ApplyPromotions(p.schema, authored, changes).value;
            KeyIsText(s) && AllTyped(s, Map(Project(s), p.rows))
  {
    var s := ApplyPromotions(p.schema, authored, changes).value;
    PromotionsWiden(p.schema, authored, changes);
    forall i | 0 <= i < |s| && s[i].name == ROW_KEY ensures s[i].ty == TString {
      assert p.schema[i].name == ROW_KEY;
    }
    forall r | r in Map(Project(s), p.rows) ensures Typed(s, r) {
      var i :| 0 <= i < |p.rows| && Map(Project(s), p.rows)[i] == r;
      assert p.rows[i] in p.rows;
      ProjectTyped(p.schema, s, p.rows[i]);
    }
  }

  /** In every run that succeeds the live rows have the types of their columns. */
  lemma {:induction false} RunTyped(h: Header, entries: seq<Entry>)
    requires Run(h, entries).Ok?
    ensures PlainTyped(Plain(h, entries))
  {
    hide Run, Step, Start, PlainTyped, PlainStep;
    RunLast(h, entries);
    if entries == [] {
      StartTyped(h);
    } else {
      var front, last := entries[..|entries| - 1], entries[|entries| - 1];
      RunTyped(h, front);
      RunIsPlain(h, front);
      RunInvariant(h, front);
      PlainStepTyped(Plain(h, front), AuthoredNames(h.fields), last);
    }
  }

  lemma StartTyped(h: Header)
    requires Start(h).Ok?
    ensures PlainTyped(Plain(h, []))
  {
    BuiltColumns(h.fields);
  }

  lemma ApartKept(a: Schema, b: Schema, labels: Labels)
    requires Widens(a, b)
    ensures LabelsApart(a, labels) <==> LabelsApart(b, labels)
  {
    assert forall i :: 0 <= i < |a| ==> a[i].name == b[i].name;
  }

  /**
   The cells of a decoded row never collide, in any state a run reaches, exactly when the header's
   ids are distinct and none is 0, or a schema change has run.
   */
  lemma RunLabelsApart(h: Header, entries: seq<Entry>)
    requires Run(h, entries).Ok?
    ensures LabelsApart(Run(h, entries).value.schema, Run(h, entries).value.labels) <==>
            UsableIds(h.fields) || !NoEvolve(entries)
  {
    hide Invariant, Step, Resume, LabelsApart, UsableIds, NoEvolve, Widens;
    var l := Run(h, entries).value;
    LabelsOfRun(h, entries);
    SchemaOfRun(h, entries);
    ApartKept(BuildSchema(h.fields), l.schema, l.labels);
    AuthoredApartExactly(h.fields);
    PositionsApart(BuildSchema(h.fields));
  }

  /**
   Two runs that end under one schema show the same at latest, each under its own labels, when they
   label alike and hold the same records, as bags; and only then, if the cells of a row never collide.
   */
  lemma LatestTells(h: Header, a: seq<Entry>, g: Header, b: seq<Entry>)
    requires Run(h, a).Ok? && Run(g, b).Ok?
    requires Run(h, a).value.schema == Run(g, b).value.schema
    ensures var l, k := Run(h, a).value, Run(g, b).value;
            var x, y := Shown(l, Named("latest"), None), Shown(k, Named("latest"), None);
            && x.Some? && y.Some?
            && (l.labels == k.labels && SameBag(l.live, k.live) ==>
                  x.value.icebergSchema == y.value.icebergSchema && SameBag(x.value.decodedRows, y.value.decodedRows))
            && (UsableIds(h.fields) || !NoEvolve(a) ==>
                  (x.value.icebergSchema == y.value.icebergSchema && SameBag(x.value.decodedRows, y.value.decodedRows) ==>
                     l.labels == k.labels && SameBag(l.live, k.live)))
  {
    hide Run, Step, StepObserve, Invariant, SchemaFields, AllTyped, LabelsApart, Widens, UsableIds, NoEvolve, Shown, Map, Decoder;
    RunInvariant(h, a);
    RunInvariant(g, b);
    RunTyped(h, a);
    RunTyped(g, b);
    RunIsPlain(h, a);
    RunIsPlain(g, b);
    RunLabelsApart(h, a);
    var l, k := Run(h, a).value, Run(g, b).value;
    ObserveShows(l, Named("latest"), None);
    ObserveShows(k, Named("latest"), None);
    EarlierSchemasTell(l.schema, l.labels, k.schema, k.labels, l.schema);
    MapBagIf(Decoder(l.schema, l.labels), l.live, k.live);
    if UsableIds(h.fields) || !NoEvolve(a) {
      DecodedBagsTell(l.schema, l.labels, l.live, k.live);
    }
  }

  lemma MapBagIf<A, B>(f: A -> B, a: seq<A>, b: seq<A>)
    ensures SameBag(a, b) ==> SameBag(Map(f, a), Map(f, b))
  {
    if SameBag(a, b) {
      MapBag(f, a, b);
    }
  }

  // ----- a name and the point it was bound at

  /** Every commit of a run holds rows of its own schema's types. */
  lemma CommitsTyped(h: Header, entries: seq<Entry>, k: nat)
    requires Run(h, entries).Ok? && k < |Run(h, entries).value.commits|
    ensures var c := Run(h, entries).value.commits[k]; AllTyped(c.schema, c.rows)
  {
    hide Run, AllTyped;
    var n := CommitPoint(h, entries, k);
    TimeTravelEqualsReplay(h, entries, k);
    RunSplit(h, entries[..n], entries[n..]);
    assert entries == entries[..n] + entries[n..];
    RunTyped(h, entries[..n]);
  }

  lemma SourceTyped(h: Header, entries: seq<Entry>, source: Option<nat>)
    requires Run(h, entries).Ok?
    ensures var l := Run(h, entries).value; AllTyped(SourceSchema(l, source), SourceRows(l, source))
  {
    hide Run, AllTyped;
    RunTyped(h, entries);
    RunIsPlain(h, entries);
    if source.Some? && source.value < |Run(h, entries).value.commits| {
      CommitsTyped(h, entries, source.value);
    }
  }

  /** Two emissions of typed rows tell the rows apart, once they show one schema under one labelling. */
  lemma EmissionsTell(
    l: Logical, a: Schema, x: seq<Record>, first: Observation,
    k: Logical, b: Schema, y: seq<Record>, again: Observation, apart: bool)
    requires EmitsAt(l, a, x, first) && EmitsAt(k, b, y, again)
    requires SchemaFields(a, l.labels) == SchemaFields(b, k.labels) ==> a == b && l.labels == k.labels
    requires AllTyped(a, x) && AllTyped(b, y) && (apart ==> LabelsApart(a, l.labels))
    ensures first.icebergSchema == again.icebergSchema <==> SchemaFields(a, l.labels) == SchemaFields(b, k.labels)
    ensures first.icebergSchema == again.icebergSchema && apart ==>
              (SameBag(first.decodedRows, again.decodedRows) <==> SameBag(x, y))
  {
    hide SchemaFields, AllTyped, LabelsApart, Map, Decoder;
    if first.icebergSchema == again.icebergSchema && apart {
      DecodedBagsTell(a, l.labels, x, y);
    }
  }

  /**
   A bind names the table's current snapshot, not the point its observe read. An observe of any point
   binds `b`, and `back`, which never rebinds it, runs: `b` then shows the schema the observe showed
   exactly when the point's schema is the last commit's and no first schema change relabels the
   columns; and then the same rows exactly when the point's rows are the last commit's, as bags.
   */
  lemma BindIgnoresPoint(h: Header, front: seq<Entry>, at: At, b: string, idx: nat, back: seq<Entry>)
    requires b != "latest" && NeverRebinds(back, b)
    requires Run(h, front).Ok? && Run(h, front).value.commits != []
    requires StepObserve(Run(h, front).value, at, Some(b)).Ok?
    requires Resume(StepObserve(Run(h, front).value, at, Some(b)).value, idx, back).Ok?
    ensures var l := Run(h, front).value;
            var k := Resume(StepObserve(l, at, Some(b)).value, idx, back).value;
            var first, again := Shown(l, at, Some(b)), Shown(k, Named(b), None);
            var last := l.commits[|l.commits| - 1];
            && ObserveSource(l, at).Ok? && first.Some? && again.Some?
            && (first.value.icebergSchema == again.value.icebergSchema <==>
                  SourceSchema(l, ObserveSource(l, at).value) == last.schema
                  && (NoEvolve(back) || !NoEvolve(front) || IdsArePositions(h.fields)))
            && (first.value.icebergSchema == again.value.icebergSchema && (UsableIds(h.fields) || !NoEvolve(front)) ==>
                  (SameBag(first.value.decodedRows, again.value.decodedRows) <==>
                     SameBag(SourceRows(l, ObserveSource(l, at).value), last.rows)))
  {
    hide Run, Step, StepObserve, SchemaFields, IdsArePositions, NoEvolve, NeverRebinds, Resume, Shown, UsableIds,
      LabelsApart, AllTyped, SourceSchema, SourceRows, EmitsAt, ObserveSource;
    var l := Run(h, front).value;
    BoundReads(h, front, at, b, idx, back);
    var source, last := ObserveSource(l, at).value, l.commits[|l.commits| - 1];
    SourceTyped(h, front, source);
    CommitsTyped(h, front, |l.commits| - 1);
    SourceApart(h, front, source);
    var k := Resume(StepObserve(l, at, Some(b)).value, idx, back).value;
    EmissionsTell(l, SourceSchema(l, source), SourceRows(l, source), Shown(l, at, Some(b)).value,
                  k, last.schema, last.rows, Shown(k, Named(b), None).value, UsableIds(h.fields) || !NoEvolve(front));
  }

  /** Cells never collide under any schema an observe can read. */
  lemma SourceApart(h: Header, entries: seq<Entry>, source: Option<nat>)
    requires Run(h, entries).Ok?
    ensures var l := Run(h, entries).value;
            UsableIds(h.fields) || !NoEvolve(entries) ==> LabelsApart(SourceSchema(l, source), l.labels)
  {
    hide Run, NoEvolve, UsableIds, LabelsApart, SourceSchema, Invariant, Widens;
    var l := Run(h, entries).value;
    RunInvariant(h, entries);
    RunLabelsApart(h, entries);
    SourceWidens(l, source);
    ApartKept(SourceSchema(l, source), l.schema, l.labels);
  }
}
