/** What a bind name promises: `doObserve` records the current snapshot and reads it back later. */
module BindLaws {
  import opened Wrappers
  import opened Text
  import opened Seqs
  import opened Values
  import opened Emit
  import opened Replay
  import opened ReplayLaws

  // ----- the rows since the last commit

  /** Since its last commit a table has only been re-read under promoted types. */
  ghost predicate LastCommitHolds(l: Logical) {
    l.commits != [] ==>
      var c := l.commits[|l.commits| - 1];
      l.live == Map(Project(l.schema), c.rows) && AllConform(c.schema, c.rows)
  }

  lemma {:induction false} ProjectIdentity(s: Schema, rows: seq<Record>)
    requires AllConform(s, rows)
    ensures Map(Project(s), rows) == rows
  {
    forall i | 0 <= i < |rows| ensures Map(Project(s), rows)[i] == rows[i] {
      ProjectConforming(s, rows[i]);
    }
  }

  lemma ProjectTwice(a: Schema, b: Schema, rows: seq<Record>)
    requires Widens(a, b)
    ensures Map(Project(b), Map(Project(a), rows)) == Map(Project(b), rows)
  {
    forall i | 0 <= i < |rows| ensures Project(b)(Project(a)(rows[i])) == Project(b)(rows[i]) {
      ProjectCompose(a, b, rows[i]);
    }
    MapMap(Project(a), Project(b), Project(b), rows);
  }

  lemma StepLastCommit(l: Logical, idx: nat, e: Entry)
    requires Invariant(l) && LastCommitHolds(l) && Step(l, idx, e).Ok?
    ensures LastCommitHolds(Step(l, idx, e).value)
  {
    hide Invariant, StepAppend, StepDelete, StepObserve, StepRewrite, StepEvolve;
    var l' := Step(l, idx, e).value;
    StepInvariant(l, idx, e);
    if e.Evolve? {
      hide LastCommitHolds;
      EvolveLastCommit(l, e.changes);
    } else {
      hide Step;
      if |l'.commits| > |l.commits| {
        StepCommit(l, idx, e, |l'.commits| - 1);
        LiveConforms(l');
        ProjectIdentity(l'.schema, l'.live);
      } else {
        QuietStep(l, idx, e);
      }
    }
  }

  lemma LiveConforms(l: Logical)
    requires Invariant(l)
    ensures AllConform(l.schema, l.live)
  {
  }

  lemma EvolveLastCommit(l: Logical, changes: seq<Promotion>)
    requires Invariant(l) && LastCommitHolds(l) && StepEvolve(l, changes).Ok?
    ensures LastCommitHolds(StepEvolve(l, changes).value)
  {
    EvolveInvariant(l, changes);
    if l.commits != [] {
      ProjectTwice(l.schema, StepEvolve(l, changes).value.schema, l.commits[|l.commits| - 1].rows);
    }
  }

  /** Short of a promotion, an entry that commits nothing leaves rows and schema alone. */
  lemma QuietStep(l: Logical, idx: nat, e: Entry)
    requires Step(l, idx, e).Ok? && !e.Evolve? && |Step(l, idx, e).value.commits| <= |l.commits|
    ensures var k := Step(l, idx, e).value; k.live == l.live && k.schema == l.schema && k.commits == l.commits
  {
  }

  lemma {:induction false} RunLastCommit(h: Header, entries: seq<Entry>)
    requires Run(h, entries).Ok?
    ensures LastCommitHolds(Run(h, entries).value)
  {
    hide Run, Step, Start, Invariant, LastCommitHolds;
    RunLast(h, entries);
    if entries == [] {
      StartLastCommit(h);
    } else {
      var front := entries[..|entries| - 1];
      RunLastCommit(h, front);
      RunInvariant(h, front);
      StepLastCommit(Run(h, front).value, |front|, entries[|front|]);
    }
  }

  lemma StartLastCommit(h: Header)
    requires Start(h).Ok?
    ensures LastCommitHolds(Start(h).value)
  {
  }

  // ----- type names tell types apart along a promotion

  lemma MiddleTells(front: string, a: string, b: string, tail: string)
    requires front + a + tail == front + b + tail
    ensures a == b
  {
    var x, y := front + a + tail, front + b + tail;
    assert |a| == |b|;
    assert a == x[|front|..|front| + |a|];
    assert b == y[|front|..|front| + |b|];
  }

  /** Two types that can both be promoted to a third have different names unless they are one type. */
  lemma TypeNameTells(a: PType, b: PType, to: PType)
    requires LegalPromotion(a, to) && LegalPromotion(b, to) && TypeName(a) == TypeName(b)
    ensures a == b
  {
    if a.TDecimal? && b.TDecimal? {
      var x, y, tail := NatText(a.precision), NatText(b.precision), ", " + NatText(a.scale) + ")";
      assert TypeName(a) == "decimal(" + x + tail && TypeName(b) == "decimal(" + y + tail;
      MiddleTells("decimal(", x, y, tail);
      NatTextValue(a.precision);
      NatTextValue(b.precision);
    }
  }

  /** Schemas on the way to one schema are emitted alike only if they have equal columns and equal labels. */
  lemma SchemaFieldsTell(a: Schema, la: Labels, b: Schema, lb: Labels, to: Schema)
    requires Widens(a, to) && Widens(b, to) && NamesColumns(la, to) && NamesColumns(lb, to)
    requires SchemaFields(a, la).Ok? && SchemaFields(b, lb).Ok?
    requires SchemaFields(a, la) == SchemaFields(b, lb)
    ensures a == b && la == lb
  {
    SchemaFieldsAt(a, la);
    SchemaFieldsAt(b, lb);
    hide SchemaFields, TypeName, LegalPromotion;
    var x, y := SchemaFields(a, la).value, SchemaFields(b, lb).value;
    forall i | 0 <= i < |a| ensures a[i] == b[i] && la[b[i].name] == lb[b[i].name] {
      assert x[i] == y[i];
      TypeNameTells(a[i].ty, b[i].ty, to[i].ty);
    }
    forall n | n in la ensures n in lb && la[n] == lb[n] {
      assert HasColumn(to, n);
      var i :| 0 <= i < |to| && to[i].name == n;
      assert b[i].name == n;
    }
    assert la.Keys == lb.Keys;
  }

  // ----- stability

  predicate NeverRebinds(entries: seq<Entry>, b: string) {
    forall i :: 0 <= i < |entries| && entries[i].Observe? ==> entries[i].bind != Some(b)
  }

  lemma StepBinds(l: Logical, idx: nat, e: Entry, b: string)
    requires Invariant(l) && Step(l, idx, e).Ok?
    requires e.Observe? ==> e.bind != Some(b)
    ensures var k := Step(l, idx, e).value;
            && l.commits <= k.commits && Widens(l.schema, k.schema)
            && (b in l.binds ==> b in k.binds && k.binds[b] == l.binds[b])
  {
    StepInvariant(l, idx, e);
  }

  lemma {:induction false} BindPersists(l: Logical, idx: nat, back: seq<Entry>, b: string)
    requires Invariant(l) && Resume(l, idx, back).Ok? && NeverRebinds(back, b)
    ensures var k := Resume(l, idx, back).value;
            && Invariant(k) && l.commits <= k.commits && Widens(l.schema, k.schema)
            && (b in l.binds ==> b in k.binds && k.binds[b] == l.binds[b])
    decreases back
  {
    if back == [] {
      WidensRefl(l.schema);
    } else {
      var next := Step(l, idx, back[0]).value;
      StepInvariant(l, idx, back[0]);
      StepBinds(l, idx, back[0], b);
      assert forall i :: 0 <= i < |back[1..]| ==> back[1..][i] == back[i + 1];
      BindPersists(next, idx + 1, back[1..], b);
      WidensTransitive(l.schema, next.schema, Resume(l, idx, back).value.schema);
    }
  }

  /** No promotion has run since the last commit. */
  predicate SchemaSettled(l: Logical) {
    l.commits != [] && l.commits[|l.commits| - 1].schema == l.schema
  }

  /** The observation an observe adds. */
  function Shown(l: Logical, at: At, bind: Option<string>): (obs: Option<Observation>) {
    if StepObserve(l, at, bind).Ok? && |StepObserve(l, at, bind).value.observations| > |l.observations|
    then Some(StepObserve(l, at, bind).value.observations[|l.observations|])
    else None
  }

  /** Two earlier schemas are emitted alike, each under its labels, exactly when schema and labels are equal. */
  lemma EarlierSchemasTell(a: Schema, la: Labels, b: Schema, lb: Labels, to: Schema)
    requires Widens(a, to) && Widens(b, to) && NamesColumns(la, to) && NamesColumns(lb, to)
    requires SchemaFields(a, la).Ok? && SchemaFields(b, lb).Ok?
    ensures SchemaFields(a, la) == SchemaFields(b, lb) <==> a == b && la == lb
  {
    hide SchemaFields, Widens, NamesColumns;
    if SchemaFields(a, la) == SchemaFields(b, lb) {
      SchemaFieldsTell(a, la, b, lb, to);
    }
  }

  lemma NamesPersist(a: Schema, b: Schema, labels: Labels)
    requires Widens(a, b)
    ensures NamesColumns(labels, a) <==> NamesColumns(labels, b)
  {
    forall n ensures HasColumn(a, n) <==> HasColumn(b, n) {
      WidensColumns(a, b, n);
    }
  }

  predicate NoEvolve(entries: seq<Entry>) {
    forall i :: 0 <= i < |entries| ==> !entries[i].Evolve?
  }

  lemma StepLabels(l: Logical, idx: nat, e: Entry)
    requires Invariant(l) && Step(l, idx, e).Ok?
    ensures Step(l, idx, e).value.labels == if e.Evolve? then PositionalLabels(l.schema) else l.labels
    ensures Widens(l.schema, Step(l, idx, e).value.schema)
  {
    hide Invariant, Widens, AnyMatch, SchemaFields, ToRecords, WriteProblem, ApplyPromotions, SourceSchema, SourceRows;
    StepInvariant(l, idx, e);
    if e.Evolve? {
      WidensPositionalLabels(l.schema, Step(l, idx, e).value.schema);
    }
  }

  /** Labels move only at the first schema change, and then to positions, for good. */
  lemma {:induction false} LabelsSettle(l: Logical, idx: nat, back: seq<Entry>)
    requires Invariant(l) && Resume(l, idx, back).Ok?
    ensures Resume(l, idx, back).value.labels == if NoEvolve(back) then l.labels else PositionalLabels(l.schema)
    decreases back
  {
    if back != [] {
      var next := Step(l, idx, back[0]).value;
      StepInvariant(l, idx, back[0]);
      StepLabels(l, idx, back[0]);
      LabelsSettle(next, idx + 1, back[1..]);
      WidensPositionalLabels(l.schema, next.schema);
      assert forall i :: 0 <= i < |back[1..]| ==> back[1..][i] == back[i + 1];
      if NoEvolve(back[1..]) && !back[0].Evolve? {
        forall i | 0 <= i < |back| ensures !back[i].Evolve? {
          assert i > 0 ==> back[i] == back[1..][i - 1];
        }
      }
    }
  }

  // ----- which labels a run ends with

  lemma {:induction false} ResumeWidens(l: Logical, idx: nat, back: seq<Entry>)
    requires Invariant(l) && Resume(l, idx, back).Ok?
    ensures Widens(l.schema, Resume(l, idx, back).value.schema)
    decreases back
  {
    hide Invariant, Step;
    if back == [] {
      WidensRefl(l.schema);
    } else {
      var next := Step(l, idx, back[0]).value;
      StepInvariant(l, idx, back[0]);
      ResumeWidens(next, idx + 1, back[1..]);
      WidensTransitive(l.schema, next.schema, Resume(l, idx, back).value.schema);
    }
  }

  lemma SchemaOfRun(h: Header, entries: seq<Entry>)
    requires Run(h, entries).Ok?
    ensures Widens(BuildSchema(h.fields), Run(h, entries).value.schema)
  {
    hide Invariant, Step;
    RunSplit(h, [], entries);
    assert [] + entries == entries;
    assert Run(h, []) == Start(h);
    StartInvariant(h);
    ResumeWidens(Start(h).value, 0, entries);
  }

  /** Java labels by authored id until the first evolve-schema entry, by position from there on. */
  lemma LabelsOfRun(h: Header, entries: seq<Entry>)
    requires Run(h, entries).Ok?
    ensures DistinctNames(BuildSchema(h.fields))
    ensures Run(h, entries).value.labels ==
              if NoEvolve(entries) then AuthoredLabels(h.fields) else PositionalLabels(BuildSchema(h.fields))
    ensures PositionalLabels(Run(h, entries).value.schema) == PositionalLabels(BuildSchema(h.fields))
  {
    hide Invariant, Step;
    RunSplit(h, [], entries);
    assert [] + entries == entries;
    assert Run(h, []) == Start(h);
    StartInvariant(h);
    LabelsSettle(Start(h).value, 0, entries);
    SchemaOfRun(h, entries);
    WidensPositionalLabels(BuildSchema(h.fields), Run(h, entries).value.schema);
  }

  // ----- what a bound name shows

  /** This observe shows these rows under this schema. */
  ghost predicate Shows(l: Logical, at: At, bind: Option<string>, schema: Schema, rows: seq<Record>) {
    Shown(l, at, bind).Some? && EmitsAt(l, schema, rows, Shown(l, at, bind).value)
  }

  /** An observe shows its source, and names the columns of every later schema as it did. */
  lemma ObserveShows(l: Logical, at: At, bind: Option<string>)
    requires Invariant(l) && ObserveSource(l, at).Ok?
    ensures var source := ObserveSource(l, at).value;
            && Shows(l, at, bind, SourceSchema(l, source), SourceRows(l, source))
            && Widens(SourceSchema(l, source), l.schema)
            && NamesColumns(l.labels, l.schema)
  {
    hide Invariant, StepObserve, Widens, NamesColumns, SchemaFields, SourceSchema, SourceRows;
    ObserveInvariant(l, at, bind);
    SourceWidens(l, ObserveSource(l, at).value);
  }

  /** A name still bound to commit `c` shows it. */
  lemma BoundShows(l: Logical, b: string, n: nat)
    requires Invariant(l) && b != "latest" && b in l.binds && l.binds[b] == n && n < |l.commits|
    ensures Shows(l, Named(b), None, l.commits[n].schema, l.commits[n].rows)
    ensures Widens(l.commits[n].schema, l.schema) && NamesColumns(l.labels, l.schema)
  {
    hide StepObserve;
    ObserveShows(l, Named(b), None);
  }

  /** The labels are the same before and after exactly when no first schema change moves them. */
  lemma LabelsKept(h: Header, front: seq<Entry>, l: Logical, idx: nat, back: seq<Entry>)
    requires Run(h, front).Ok? && Invariant(l) && Resume(l, idx, back).Ok?
    requires l.labels == Run(h, front).value.labels && l.schema == Run(h, front).value.schema
    ensures Resume(l, idx, back).value.labels == l.labels <==>
            NoEvolve(back) || !NoEvolve(front) || IdsArePositions(h.fields)
  {
    hide Step, Invariant, IdsArePositions, NoEvolve, DistinctNames;
    LabelsSettle(l, idx, back);
    LabelsOfRun(h, front);
    LabelsAgreeExactly(h.fields);
  }

  /**
   From any reached state with a snapshot an observe, of whatever point, binds `b`, and `back`, which
   never rebinds it, runs. The observe shows its source and `b` shows the commit that was the last
   one: the two schemas are emitted alike exactly when they are equal and `back` holds no first
   schema change that relabels the columns.
   */
  lemma BoundReads(h: Header, front: seq<Entry>, at: At, b: string, idx: nat, back: seq<Entry>)
    requires b != "latest" && NeverRebinds(back, b)
    requires Run(h, front).Ok? && Run(h, front).value.commits != []
    requires StepObserve(Run(h, front).value, at, Some(b)).Ok?
    requires Resume(StepObserve(Run(h, front).value, at, Some(b)).value, idx, back).Ok?
    ensures var l := Run(h, front).value;
            var k := Resume(StepObserve(l, at, Some(b)).value, idx, back).value;
            var last := l.commits[|l.commits| - 1];
            && ObserveSource(l, at).Ok?
            && var schema, rows := SourceSchema(l, ObserveSource(l, at).value), SourceRows(l, ObserveSource(l, at).value);
               && Shows(l, at, Some(b), schema, rows) && Shows(k, Named(b), None, last.schema, last.rows)
               && (SchemaFields(schema, l.labels) == SchemaFields(last.schema, k.labels) <==>
                     schema == last.schema && (NoEvolve(back) || !NoEvolve(front) || IdsArePositions(h.fields)))
               && (SchemaFields(schema, l.labels) == SchemaFields(last.schema, k.labels) ==> l.labels == k.labels)
  {
    hide Step, StepObserve, Invariant, IdsArePositions, NoEvolve, Widens, NamesColumns, SchemaFields, Shown;
    var l := Run(h, front).value;
    RunInvariant(h, front);
    ObserveInvariant(l, at, Some(b));
    ObserveShows(l, at, Some(b));
    var bound := StepObserve(l, at, Some(b)).value;
    BindPersists(bound, idx, back, b);
    var k, n := Resume(bound, idx, back).value, |l.commits| - 1;
    BoundShows(k, b, n);
    assert k.commits[n] == l.commits[n];
    LabelsKept(h, front, bound, idx, back);
    var source := SourceSchema(l, ObserveSource(l, at).value);
    WidensTransitive(source, l.schema, k.schema);
    NamesPersist(l.schema, k.schema, l.labels);
    EarlierSchemasTell(source, l.labels, l.commits[n].schema, k.labels, k.schema);
  }

  /**
   From any reached state with a snapshot, an observe at latest binds `b`, and `back`, which never
   rebinds it, runs. Reading `b` then shows the same schema exactly when no promotion lay between
   the last commit and the bind, and `back` holds no first schema change that relabels the columns;
   and then the same rows.
   */
  lemma BindStability(h: Header, front: seq<Entry>, b: string, idx: nat, back: seq<Entry>)
    requires b != "latest" && NeverRebinds(back, b)
    requires Run(h, front).Ok? && Run(h, front).value.commits != []
    requires StepObserve(Run(h, front).value, Named("latest"), Some(b)).Ok?
    requires Resume(StepObserve(Run(h, front).value, Named("latest"), Some(b)).value, idx, back).Ok?
    ensures var l := Run(h, front).value;
            var k := Resume(StepObserve(l, Named("latest"), Some(b)).value, idx, back).value;
            var first, again := Shown(l, Named("latest"), Some(b)), Shown(k, Named(b), None);
            && first.Some? && again.Some?
            && (first.value.icebergSchema == again.value.icebergSchema <==>
                  SchemaSettled(l) && (NoEvolve(back) || !NoEvolve(front) || IdsArePositions(h.fields)))
            && (first.value.icebergSchema == again.value.icebergSchema ==>
                  first.value.decodedRows == again.value.decodedRows)
  {
    hide Run, Step, StepObserve, SchemaFields, IdsArePositions, NoEvolve, NeverRebinds, Resume, Shown;
    RunLastCommit(h, front);
    BoundReads(h, front, Named("latest"), b, idx, back);
    SettledRows(Run(h, front).value);
  }

  /** With the schema settled, the live rows are the last commit's. */
  lemma SettledRows(l: Logical)
    requires LastCommitHolds(l)
    ensures SchemaSettled(l) ==> l.live == l.commits[|l.commits| - 1].rows
  {
    if SchemaSettled(l) {
      ProjectIdentity(l.schema, l.commits[|l.commits| - 1].rows);
    }
  }

  /**
   A consolidating rewrite before a bind moves the commit the name reads: the name shows the same
   schema with and without the rewrite exactly when no promotion has run since the last commit, and
   then the same rows.
   */
  lemma RewriteRebinds(h: Header, front: seq<Entry>, b: string)
    requires Run(h, front).Ok? && Run(h, front).value.files > 1 && b != "latest"
    ensures var l := Run(h, front).value;
            var with, without := StepObserve(StepRewrite(l).value, Named("latest"), Some(b)),
                                 StepObserve(l, Named("latest"), Some(b));
            && l.commits != [] && with.Ok? && without.Ok?
            && Shown(with.value, Named(b), None).Some? && Shown(without.value, Named(b), None).Some?
            && var x, y := Shown(with.value, Named(b), None).value, Shown(without.value, Named(b), None).value;
               && (x.icebergSchema == y.icebergSchema <==> SchemaSettled(l))
               && (x.icebergSchema == y.icebergSchema ==> x.decodedRows == y.decodedRows)
  {
    hide Step, StepObserve, SchemaFields, Invariant;
    var l := Run(h, front).value;
    RunInvariant(h, front);
    RunLastCommit(h, front);
    RewriteInvariant(l);
    HasCommits(l);
    var r := StepRewrite(l).value;
    BoundReadsLast(r, Named("latest"), b);
    BoundReadsLast(l, Named("latest"), b);
    var c := l.commits[|l.commits| - 1];
    BoundLabels(r, b);
    BoundLabels(l, b);
    SettledSchema(l, c);
  }

  lemma HasCommits(l: Logical)
    requires Invariant(l) && l.files > 0
    ensures l.commits != []
  {
  }

  lemma BoundLabels(l: Logical, b: string)
    requires Invariant(l)
    ensures StepObserve(l, Named("latest"), Some(b)).Ok?
    ensures StepObserve(l, Named("latest"), Some(b)).value.labels == l.labels
  {
    ObserveInvariant(l, Named("latest"), Some(b));
  }

  /** Under one labelling the last commit shows the current schema exactly when it has it. */
  lemma SettledSchema(l: Logical, c: Commit)
    requires Invariant(l) && LastCommitHolds(l) && l.commits != [] && c == l.commits[|l.commits| - 1]
    ensures SchemaFields(l.schema, l.labels).Ok? && SchemaFields(c.schema, l.labels).Ok?
    ensures SchemaFields(l.schema, l.labels) == SchemaFields(c.schema, l.labels) <==> SchemaSettled(l)
    ensures SchemaSettled(l) ==> l.live == c.rows
  {
    hide LastCommitHolds, SchemaFields, Widens, Invariant, NamesColumns;
    SourceLabelled(l, None);
    SourceLabelled(l, Some(|l.commits| - 1));
    SourceWidens(l, None);
    SourceWidens(l, Some(|l.commits| - 1));
    EarlierSchemasTell(l.schema, l.labels, c.schema, l.labels, l.schema);
    SettledRows(l);
  }

  /** Every schema an observe can read is on the way to the current one, whose columns are labelled. */
  lemma SourceWidens(l: Logical, source: Option<nat>)
    requires Invariant(l)
    ensures Widens(SourceSchema(l, source), l.schema) && NamesColumns(l.labels, l.schema)
  {
    WidensRefl(l.schema);
  }

  /** Wherever an observe reads, the name it binds reads the last commit afterwards. */
  lemma BoundReadsLast(l: Logical, at: At, b: string)
    requires Invariant(l) && ObserveSource(l, at).Ok? && l.commits != [] && b != "latest"
    ensures StepObserve(l, at, Some(b)).Ok?
    ensures var last := l.commits[|l.commits| - 1];
            Shows(StepObserve(l, at, Some(b)).value, Named(b), None, last.schema, last.rows)
  {
    hide StepObserve, Shown;
    ObserveInvariant(l, at, Some(b));
    BoundShows(StepObserve(l, at, Some(b)).value, b, |l.commits| - 1);
  }
}
