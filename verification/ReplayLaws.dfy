/** What every run of the logical machine keeps, and the relations the design promises of it. */
module ReplayLaws {
  import opened Wrappers
  import opened Seqs
  import opened Values
  import opened Predicates
  import opened Emit
  import opened Replay

  // ----- promotions keep everything but types

  lemma {:induction false} RetypeWidens(s: Schema, name: string, to: PType)
    requires TypeOf(s, name).Some? && LegalPromotion(TypeOf(s, name).value, to)
    ensures Widens(s, RetypeFrom(s, name, to))
  {
    if s[0].name == name {
      WidensRefl(s[1..]);
      var t := RetypeFrom(s, name, to);
      assert forall i :: 0 < i < |s| ==> t[i] == s[i];
    } else {
      RetypeWidens(s[1..], name, to);
      var t := RetypeFrom(s, name, to);
      assert forall i :: 0 < i < |s| ==> t[i] == RetypeFrom(s[1..], name, to)[i - 1] && s[i] == s[1..][i - 1];
    }
  }

  lemma {:induction false} PromotionsWiden(s: Schema, authored: map<int, string>, changes: seq<Promotion>)
    requires ApplyPromotions(s, authored, changes).Ok?
    ensures Widens(s, ApplyPromotions(s, authored, changes).value)
    decreases changes
  {
    if changes == [] {
      WidensRefl(s);
    } else {
      var name := authored[changes[0].fieldId];
      var t := RetypeFrom(s, name, changes[0].to);
      RetypeWidens(s, name, changes[0].to);
      PromotionsWiden(t, authored, changes[1..]);
      WidensTransitive(s, t, ApplyPromotions(s, authored, changes).value);
    }
  }

  lemma WidensColumns(a: Schema, b: Schema, n: string)
    requires Widens(a, b)
    ensures HasColumn(a, n) <==> HasColumn(b, n)
  {
    if HasColumn(a, n) {
      var i :| 0 <= i < |a| && a[i].name == n;
      assert b[i].name == n;
    }
    if HasColumn(b, n) {
      var i :| 0 <= i < |b| && b[i].name == n;
      assert a[i].name == n;
    }
  }

  lemma {:induction false} WidensUserColumns(a: Schema, b: Schema)
    requires Widens(a, b)
    ensures UserColumns(a) == UserColumns(b)
  {
    if a != [] {
      WidensUserColumns(a[..|a| - 1], b[..|b| - 1]);
    }
  }

  /** Positional labels do not notice a promotion. */
  lemma {:induction false} WidensPositionalLabels(a: Schema, b: Schema)
    requires Widens(a, b)
    ensures PositionalLabels(a) == PositionalLabels(b)
  {
    if a != [] {
      WidensPositionalLabels(a[..|a| - 1], b[..|b| - 1]);
      WidensUserColumns(a, b);
    }
  }

  // ----- the invariant

  ghost predicate AllConform(s: Schema, rows: seq<Record>) {
    forall i :: 0 <= i < |rows| ==> Conforms(s, rows[i])
  }

  /** Commit `k` has ordinal `k` and the commit before it as its parent. */
  predicate OrdinalsInOrder(commits: seq<Commit>) {
    forall k :: 0 <= k < |commits| ==> commits[k].out.ordinal == k && commits[k].out.parent == ParentOf(k)
  }

  ghost predicate Invariant(l: Logical) {
    && DistinctNames(l.schema)
    && NamesColumns(l.labels, l.schema)
    && OrdinalsInOrder(l.commits)
    && (forall k :: 0 <= k < |l.commits| ==> Widens(l.commits[k].schema, l.schema))
    && (forall b :: b in l.binds ==> l.binds[b] < |l.commits|)
    && (forall r :: r in l.live ==> r in l.stored)
    && AllConform(l.schema, l.live) && AllConform(l.schema, l.stored)
    && (forall r :: r in l.stored ==> RecordProblem(l.schema, r) == None)
    && |l.live| <= |l.stored|
    && (l.files == 0 <==> l.commits == [])
    && (l.commits == [] ==> l.stored == [])
  }

  lemma StartInvariant(h: Header)
    requires Start(h).Ok?
    ensures Invariant(Start(h).value)
  {
    AuthoredLabelsKeys(h.fields);
  }

  lemma AppendInvariant(l: Logical, rows: seq<RowIn>)
    requires Invariant(l) && StepAppend(l, rows).Ok?
    ensures Invariant(StepAppend(l, rows).value)
  {
    ToRecordsConform(l.schema, rows);
    NoWriteProblem(l.schema, ToRecords(l.schema, rows).value);
    WidensRefl(l.schema);
  }

  lemma {:induction false} NoWriteProblem(s: Schema, rows: seq<Record>)
    ensures WriteProblem(s, rows) == None <==> forall r :: r in rows ==> RecordProblem(s, r) == None
  {
    if rows != [] {
      NoWriteProblem(s, rows[1..]);
      assert rows[0] in rows;
      assert forall r :: r in rows[1..] ==> r in rows;
      assert forall r :: r in rows ==> r == rows[0] || r in rows[1..];
    }
  }

  lemma {:induction false} ColumnHasType(s: Schema, i: nat)
    requires i < |s|
    ensures TypeOf(s, s[i].name).Some?
  {
    if i > 0 {
      ColumnHasType(s[1..], i - 1);
    }
  }

  /** A promotion keeps a record writable: no column loses its value or its room for it. */
  lemma ProjectKeepsWritable(a: Schema, b: Schema, r: Record)
    requires Widens(a, b) && RecordProblem(a, r) == None
    ensures RecordProblem(b, Project(b)(r)) == None
  {
    RecordProblemAt(a, r);
    RecordProblemAt(b, Project(b)(r));
    hide RecordProblem, ColumnProblem;
    forall i | 0 <= i < |b| ensures ColumnProblem(b[i], Project(b)(r)) == None {
      assert ColumnProblem(a[i], r) == None;
      ColumnHasType(b, i);
      WidenedFits(a[i], b[i], b, r);
    }
  }

  lemma WidenedFits(f: Field, g: Field, s: Schema, r: Record)
    requires f.name == g.name && f.required == g.required && LegalPromotion(f.ty, g.ty) && TypeOf(s, g.name).Some?
    requires ColumnProblem(f, r) == None
    ensures ColumnProblem(g, Project(s)(r)) == None
  {
  }

  lemma FilterConforms(s: Schema, m: Matcher, rows: seq<Record>)
    requires AllConform(s, rows)
    ensures AllConform(s, Filter(Survives(m), rows))
    ensures forall r :: r in Filter(Survives(m), rows) ==> r in rows
  {
    forall r | r in Filter(Survives(m), rows) ensures r in rows {
      FilterIn(Survives(m), rows, r);
    }
    forall i | 0 <= i < |Filter(Survives(m), rows)| ensures Conforms(s, Filter(Survives(m), rows)[i]) {
      assert Filter(Survives(m), rows)[i] in rows;
    }
  }

  lemma DeleteInvariant(l: Logical, idx: nat, kind: string, pred: Option<Pred>)
    requires Invariant(l) && StepDelete(l, idx, kind, pred).Ok?
    ensures Invariant(StepDelete(l, idx, kind, pred).value)
  {
    var m := MatcherOf(pred.value, l.schema).value;
    if AnyMatch(m, l.stored) {
      FilterConforms(l.schema, m, l.live);
      WidensRefl(l.schema);
      assert l.commits != [];
    }
  }

  /** An append of writable records adds them and commits. */
  lemma AppendRuns(l: Logical, rows: seq<RowIn>, recs: seq<Record>)
    requires Invariant(l) && ToRecords(l.schema, rows) == Ok(recs) && WriteProblem(l.schema, recs) == None
    ensures StepAppend(l, rows).Ok?
    ensures var k := StepAppend(l, rows).value;
            && Invariant(k) && k.live == l.live + recs && k.commits != []
            && k.version == l.version && k.schema == l.schema && k.labels == l.labels && k.binds == l.binds
  {
    AppendInvariant(l, rows);
  }

  /** A delete that compiles, on a table with a snapshot, keeps exactly the rows it does not match. */
  lemma DeleteRuns(l: Logical, idx: nat, kind: string, pred: Pred, m: Matcher)
    requires Invariant(l) && l.version == 2 && l.commits != []
    requires kind != "equality" && kind != "deletion-vector" && MatcherOf(pred, l.schema) == Ok(m)
    ensures StepDelete(l, idx, kind, Some(pred)).Ok?
    ensures var k := StepDelete(l, idx, kind, Some(pred)).value;
            && Invariant(k) && k.live == Filter(Survives(m), l.live) && k.commits != []
            && k.version == l.version && k.schema == l.schema && k.labels == l.labels && k.binds == l.binds
  {
    DeleteInvariant(l, idx, kind, Some(pred));
    if !AnyMatch(m, l.stored) {
      NoMatchRemovesNothing(l, m);
    }
  }

  lemma ProjectAll(s: Schema, rows: seq<Record>)
    ensures AllConform(s, Map(Project(s), rows))
  {
    forall i | 0 <= i < |rows| ensures Conforms(s, Map(Project(s), rows)[i]) {
      ProjectConforming(s, rows[i]);
    }
  }

  lemma EvolveInvariant(l: Logical, changes: seq<Promotion>)
    requires Invariant(l) && StepEvolve(l, changes).Ok?
    ensures Invariant(StepEvolve(l, changes).value)
    ensures Widens(l.schema, StepEvolve(l, changes).value.schema)
  {
    var t := ApplyPromotions(l.schema, l.authored, changes).value;
    var l' := StepEvolve(l, changes).value;
    PromotionsWiden(l.schema, l.authored, changes);
    PositionalLabelsKeys(t);
    ProjectAll(t, l.live);
    ProjectAll(t, l.stored);
    forall k | 0 <= k < |l.commits| ensures Widens(l.commits[k].schema, t) {
      WidensTransitive(l.commits[k].schema, l.schema, t);
    }
    ProjectedWritable(l.schema, t, l.stored);
    ProjectedAmong(Project(t), l.live, l.stored);
    hide ApplyPromotions, RecordProblem, Widens, Map, Project, PositionalLabels, DistinctNames;
    SameNamesDistinct(l.schema, t);
  }

  lemma SameNamesDistinct(a: Schema, b: Schema)
    requires DistinctNames(a) && Widens(a, b)
    ensures DistinctNames(b)
  {
  }

  lemma ProjectedWritable(a: Schema, b: Schema, rows: seq<Record>)
    requires Widens(a, b) && forall r :: r in rows ==> RecordProblem(a, r) == None
    ensures forall r :: r in Map(Project(b), rows) ==> RecordProblem(b, r) == None
  {
    hide RecordProblem, Project, Widens;
    forall r | r in Map(Project(b), rows) ensures RecordProblem(b, r) == None {
      var j :| 0 <= j < |rows| && Map(Project(b), rows)[j] == r;
      assert rows[j] in rows;
      ProjectKeepsWritable(a, b, rows[j]);
    }
  }

  lemma ProjectedAmong(f: Record -> Record, live: seq<Record>, stored: seq<Record>)
    requires forall r :: r in live ==> r in stored
    ensures forall r :: r in Map(f, live) ==> r in Map(f, stored)
  {
    forall r | r in Map(f, live) ensures r in Map(f, stored) {
      var i :| 0 <= i < |live| && Map(f, live)[i] == r;
      assert live[i] in stored;
      var j :| 0 <= j < |stored| && stored[j] == live[i];
      assert Map(f, stored)[j] == r;
    }
  }

  lemma RewriteInvariant(l: Logical)
    requires Invariant(l)
    ensures StepRewrite(l).Ok? && Invariant(StepRewrite(l).value)
  {
    hide RecordProblem, NamesColumns, DistinctNames, SummaryOf, DeleteFileOuts;
    WidensRefl(l.schema);
  }

  /** `obs` is what an observe emits for these rows under this schema and the labels of `l`. */
  ghost predicate EmitsAt(l: Logical, schema: Schema, rows: seq<Record>, obs: Observation) {
    && SchemaFields(schema, l.labels) == Ok(obs.icebergSchema)
    && obs.decodedRows == Map(Decoder(schema, l.labels), rows)
  }

  lemma SourceLabelled(l: Logical, source: Option<nat>)
    requires Invariant(l)
    ensures SchemaFields(SourceSchema(l, source), l.labels).Ok?
  {
    var schema := SourceSchema(l, source);
    SchemaFieldsAt(schema, l.labels);
    WidensRefl(l.schema);
    forall i | 0 <= i < |schema| ensures schema[i].name in l.labels {
      assert HasColumn(schema, schema[i].name);
      WidensColumns(schema, l.schema, schema[i].name);
    }
  }

  /** An observe fails only for an unknown bind or ordinal; it emits one observation, of its source. */
  lemma ObserveInvariant(l: Logical, at: At, bind: Option<string>)
    requires Invariant(l)
    ensures StepObserve(l, at, bind).Ok? <==> ObserveSource(l, at).Ok?
    ensures ObserveSource(l, at).Err? ==> StepObserve(l, at, bind) == Err(Failure(ObserveSource(l, at).error))
    ensures StepObserve(l, at, bind).Ok? ==>
              var l', source := StepObserve(l, at, bind).value, ObserveSource(l, at).value;
              && Invariant(l')
              && l' == l.(observations := l'.observations, binds := l'.binds)
              && |l'.observations| == |l.observations| + 1 && l.observations <= l'.observations
              && EmitsAt(l, SourceSchema(l, source), SourceRows(l, source), l'.observations[|l.observations|])
              && l'.observations[|l.observations|].at == AtEcho(at, bind)
              && l'.observations[|l.observations|].bind == bind
              && l'.binds == if bind.Some? && l.commits != [] then l.binds[bind.value := |l.commits| - 1] else l.binds
  {
    if ObserveSource(l, at).Ok? {
      SourceLabelled(l, ObserveSource(l, at).value);
    }
  }

  lemma StepInvariant(l: Logical, idx: nat, e: Entry)
    requires Invariant(l) && Step(l, idx, e).Ok?
    ensures Invariant(Step(l, idx, e).value)
    ensures Widens(l.schema, Step(l, idx, e).value.schema)
    ensures l.commits <= Step(l, idx, e).value.commits
  {
    hide Invariant, ToRecords, WriteProblem, MatcherOf, AnyMatch, ApplyPromotions, SchemaFields, Map, Filter, Widens;
    WidensRefl(l.schema);
    match e
    case Append(rows) => AppendInvariant(l, rows);
    case Delete(kind, pred) => DeleteInvariant(l, idx, kind, pred);
    case Evolve(changes) => EvolveInvariant(l, changes);
    case Rewrite => RewriteInvariant(l);
    case Observe(at, bind) => ObserveInvariant(l, at, bind);
    case OtherOp(_) =>
  }

  /** A run ends with the step of its last entry. */
  lemma RunLast(h: Header, entries: seq<Entry>)
    requires Run(h, entries).Ok?
    ensures entries == [] ==> Start(h).Ok? && Run(h, entries) == Start(h)
    ensures entries != [] ==>
              var front := entries[..|entries| - 1];
              && Run(h, front).Ok?
              && Step(Run(h, front).value, |front|, entries[|front|]) == Run(h, entries)
  {
    hide Step, Start;
  }

  lemma {:induction false} RunInvariant(h: Header, entries: seq<Entry>)
    requires Run(h, entries).Ok?
    ensures Invariant(Run(h, entries).value)
  {
    hide Run, Step, Start, Invariant;
    RunLast(h, entries);
    if entries == [] {
      StartInvariant(h);
    } else {
      RunInvariant(h, entries[..|entries| - 1]);
      StepInvariant(Run(h, entries[..|entries| - 1]).value, |entries| - 1, entries[|entries| - 1]);
    }
  }

  lemma StepVersion(l: Logical, idx: nat, e: Entry)
    requires Step(l, idx, e).Ok?
    ensures Step(l, idx, e).value.version == l.version
  {
    hide MatcherOf, SchemaFields, ToRecords, WriteProblem, ApplyPromotions, AnyMatch, SourceSchema, SourceRows;
  }

  lemma {:induction false} RunVersion(h: Header, entries: seq<Entry>)
    requires Run(h, entries).Ok?
    ensures Run(h, entries).value.version == h.version
  {
    hide Run, Step;
    RunLast(h, entries);
    if entries != [] {
      var front := entries[..|entries| - 1];
      RunVersion(h, front);
      StepVersion(Run(h, front).value, |front|, entries[|front|]);
    }
  }

  // ----- rows are the plain replay

  /** A delete that commits nothing would have removed nothing. */
  lemma NoMatchRemovesNothing(l: Logical, m: Matcher)
    requires Invariant(l) && !AnyMatch(m, l.stored)
    ensures Filter(Survives(m), l.live) == l.live
  {
    forall r | r in l.live ensures !Matches(m, r) {
      assert r in l.stored;
    }
    FilterAll(Survives(m), l.live);
  }

  lemma StepIsPlain(l: Logical, idx: nat, e: Entry)
    requires Invariant(l) && Step(l, idx, e).Ok?
    ensures var l' := Step(l, idx, e).value;
            PlainState(l'.schema, l'.labels, l'.live) ==
              PlainStep(PlainState(l.schema, l.labels, l.live), l.authored, e)
    ensures Step(l, idx, e).value.authored == l.authored
  {
    match e {
      case Delete(kind, pred) =>
        var m := MatcherOf(pred.value, l.schema).value;
        if !AnyMatch(m, l.stored) {
          NoMatchRemovesNothing(l, m);
        }
      case _ =>
    }
  }

  /** At every point of every run the live rows, schema and labels are those of the plain replay. */
  lemma {:induction false} RunIsPlain(h: Header, entries: seq<Entry>)
    requires Run(h, entries).Ok?
    ensures var l := Run(h, entries).value;
            PlainState(l.schema, l.labels, l.live) == Plain(h, entries) && l.authored == AuthoredNames(h.fields)
  {
    hide Run, Step, PlainStep, Invariant, Start, BuildSchema, AuthoredLabels, AuthoredNames;
    RunLast(h, entries);
    if entries == [] {
      StartIsPlain(h);
    } else {
      var front := entries[..|entries| - 1];
      RunIsPlain(h, front);
      RunInvariant(h, front);
      StepIsPlain(Run(h, front).value, |front|, entries[|front|]);
    }
  }

  lemma StartIsPlain(h: Header)
    requires Start(h).Ok?
    ensures var l := Start(h).value;
            PlainState(l.schema, l.labels, l.live) == Plain(h, []) && l.authored == AuthoredNames(h.fields)
  {
  }

  // ----- time travel equals replay

  /** How many entries had run when commit `k` was made. */
  ghost function CommitPoint(h: Header, entries: seq<Entry>, k: nat): (n: nat)
    requires Run(h, entries).Ok? && k < |Run(h, entries).value.commits|
    ensures n <= |entries|
  {
    var front := entries[..|entries| - 1];
    if k < |Run(h, front).value.commits| then CommitPoint(h, front, k) else |entries|
  }

  lemma StepCommit(l: Logical, idx: nat, e: Entry, k: nat)
    requires Step(l, idx, e).Ok?
    requires |l.commits| <= k < |Step(l, idx, e).value.commits|
    ensures var l' := Step(l, idx, e).value; l'.commits[k].rows == l'.live && l'.commits[k].schema == l'.schema
  {
  }

  lemma LastStep(h: Header, entries: seq<Entry>)
    requires Run(h, entries).Ok? && entries != []
    ensures Run(h, entries[..|entries| - 1]).Ok?
    ensures var before, after := Run(h, entries[..|entries| - 1]).value.commits, Run(h, entries).value.commits;
            && before <= after
            && forall k :: |before| <= k < |after| ==>
                 after[k].rows == Plain(h, entries).rows && after[k].schema == Plain(h, entries).schema
  {
    hide Step, Plain, Invariant, Widens, BuildSchema;
    var front := entries[..|entries| - 1];
    var l := Run(h, front).value;
    RunInvariant(h, front);
    StepInvariant(l, |front|, entries[|front|]);
    RunIsPlain(h, entries);
    var after := Run(h, entries).value.commits;
    forall k | |l.commits| <= k < |after|
      ensures after[k].rows == Plain(h, entries).rows && after[k].schema == Plain(h, entries).schema
    {
      StepCommit(l, |front|, entries[|front|], k);
    }
  }

  /** Commit `k` holds the rows of the plain replay up to it, whatever has run since. */
  lemma {:induction false} TimeTravelEqualsReplay(h: Header, entries: seq<Entry>, k: nat)
    requires Run(h, entries).Ok? && k < |Run(h, entries).value.commits|
    ensures var l := Run(h, entries).value;
            var prefix := Plain(h, entries[..CommitPoint(h, entries, k)]);
            l.commits[k].rows == prefix.rows && l.commits[k].schema == prefix.schema
  {
    var front := entries[..|entries| - 1];
    LastStep(h, entries);
    if k < |Run(h, front).value.commits| {
      TimeTravelEqualsReplay(h, front, k);
      var n := CommitPoint(h, front, k);
      assert entries[..n] == front[..n];
    } else {
      assert entries[..|entries|] == entries;
    }
  }

  /** An observe at ordinal `k`, at any later point, emits the replay of the entries up to commit `k`. */
  lemma ObserveAtOrdinal(h: Header, entries: seq<Entry>, k: nat)
    requires Run(h, entries).Ok? && k < |Run(h, entries).value.commits|
    ensures var l := Run(h, entries).value;
            var prefix := Plain(h, entries[..CommitPoint(h, entries, k)]);
            && StepObserve(l, Ordinal(k), None).Ok?
            && EmitsAt(l, prefix.schema, prefix.rows,
                       StepObserve(l, Ordinal(k), None).value.observations[|l.observations|])
  {
    RunInvariant(h, entries);
    ObserveInvariant(Run(h, entries).value, Ordinal(k), None);
    TimeTravelEqualsReplay(h, entries, k);
  }

  lemma RunSnoc(h: Header, front: seq<Entry>, e: Entry)
    ensures Run(h, front + [e]) == if Run(h, front).Ok? then Step(Run(h, front).value, |front|, e) else Run(h, front)
  {
    assert (front + [e])[..|front|] == front;
  }

  /** A run may be split anywhere. */
  lemma {:induction false} RunSplit(h: Header, front: seq<Entry>, back: seq<Entry>)
    ensures Run(h, front + back) ==
              if Run(h, front).Ok? then Resume(Run(h, front).value, |front|, back) else Run(h, front)
    decreases back
  {
    if back == [] {
      assert front + back == front;
    } else {
      assert front + back == front + [back[0]] + back[1..];
      RunSnoc(h, front, back[0]);
      RunSplit(h, front + [back[0]], back[1..]);
    }
  }

  // ----- deletes

  /** Repeating a delete changes no live row. */
  lemma DeleteIsIdempotent(l: Logical, idx: nat, kind: string, pred: Option<Pred>)
    requires Invariant(l) && Step(l, idx, Delete(kind, pred)).Ok?
    ensures var once := Step(l, idx, Delete(kind, pred)).value;
            && Step(once, idx + 1, Delete(kind, pred)).Ok?
            && Step(once, idx + 1, Delete(kind, pred)).value.live == once.live
  {
    var once := Step(l, idx, Delete(kind, pred)).value;
    var m := MatcherOf(pred.value, l.schema).value;
    StepIsPlain(l, idx, Delete(kind, pred));
    DeleteInvariant(l, idx, kind, pred);
    assert once.schema == l.schema && once.version == l.version;
    FilterIdempotent(Survives(m), l.live);
    StepIsPlain(once, idx + 1, Delete(kind, pred));
  }

  /** The scan counts as many rows as the summary's total-records. */
  predicate Balanced(l: Logical) {
    |l.live| == |l.stored|
  }

  lemma {:induction false} FilterShrinks(m: Matcher, rows: seq<Record>)
    ensures |Filter(Survives(m), rows)| == |rows| <==> !AnyMatch(m, rows)
  {
    if rows != [] {
      FilterShrinks(m, rows[1..]);
      assert forall i :: 0 <= i < |rows[1..]| ==> rows[1..][i] == rows[i + 1];
      assert forall i :: 0 < i < |rows| ==> rows[i] == rows[1..][i - 1];
    }
  }

  lemma StepBalance(l: Logical, idx: nat, e: Entry)
    requires Invariant(l) && Step(l, idx, e).Ok?
    ensures var l' := Step(l, idx, e).value;
            && (e.Delete? ==> (Balanced(l') <==>
                  Balanced(l) && !AnyMatch(MatcherOf(e.pred.value, l.schema).value, l.live)))
            && (e.Rewrite? ==> (Balanced(l') <==> Balanced(l) || l.files > 1))
            && (e.Append? || e.Evolve? || e.Observe? ==> (Balanced(l') <==> Balanced(l)))
  {
    if e.Delete? {
      var m := MatcherOf(e.pred.value, l.schema).value;
      FilterShrinks(m, l.live);
      if !AnyMatch(m, l.stored) {
        NoMatchRemovesNothing(l, m);
      }
    }
  }

  /** How many data files the log leaves: an append adds one, a rewrite of two or more makes one. */
  function FilesAfter(entries: seq<Entry>): nat {
    if entries == [] then 0
    else
      var before := FilesAfter(entries[..|entries| - 1]);
      var e := entries[|entries| - 1];
      if e.Append? then before + 1 else if e.Rewrite? && before > 1 then 1 else before
  }

  lemma StepFiles(l: Logical, idx: nat, e: Entry)
    requires Step(l, idx, e).Ok?
    ensures Step(l, idx, e).value.files == if e.Append? then l.files + 1 else if e.Rewrite? && l.files > 1 then 1 else l.files
  {
    hide MatcherOf, SchemaFields, ToRecords, WriteProblem, ApplyPromotions, AnyMatch, SourceSchema, SourceRows;
  }

  lemma {:induction false} RunFiles(h: Header, entries: seq<Entry>)
    requires Run(h, entries).Ok?
    ensures Run(h, entries).value.files == FilesAfter(entries)
  {
    hide Run, Step;
    RunLast(h, entries);
    if entries != [] {
      var front := entries[..|entries| - 1];
      RunFiles(h, front);
      StepFiles(Run(h, front).value, |front|, entries[|front|]);
    }
  }

  /** Entry `i` deletes a row that the plain replay still has. */
  ghost predicate HitsAt(h: Header, entries: seq<Entry>, i: nat)
    requires i < |entries|
  {
    var p := Plain(h, entries[..i]);
    && entries[i].Delete? && entries[i].pred.Some? && MatcherOf(entries[i].pred.value, p.schema).Ok?
    && AnyMatch(MatcherOf(entries[i].pred.value, p.schema).value, p.rows)
  }

  /** Entry `i` is a rewrite that finds two files or more. */
  predicate ConsolidatesAt(entries: seq<Entry>, i: nat)
    requires i < |entries|
  {
    entries[i].Rewrite? && FilesAfter(entries[..i]) > 1
  }

  /** No delete has hit a row since the last consolidating rewrite. */
  ghost predicate Settled(h: Header, entries: seq<Entry>) {
    forall i :: 0 <= i < |entries| && HitsAt(h, entries, i) ==>
      exists j :: i < j < |entries| && ConsolidatesAt(entries, j)
  }

  lemma SettledSnoc(h: Header, front: seq<Entry>, e: Entry)
    ensures var all := front + [e];
            Settled(h, all) <==>
              if ConsolidatesAt(all, |front|) then true else Settled(h, front) && !HitsAt(h, all, |front|)
  {
    var all := front + [e];
    forall i | 0 <= i < |front|
      ensures HitsAt(h, all, i) <==> HitsAt(h, front, i)
      ensures ConsolidatesAt(all, i) <==> ConsolidatesAt(front, i)
    {
      assert all[..i] == front[..i] && all[i] == front[i];
    }
    hide HitsAt, ConsolidatesAt;
    if ConsolidatesAt(all, |front|) {
      RewriteHitsNothing(h, all, |front|);
    } else {
      if Settled(h, all) {
        forall i | 0 <= i < |front| && HitsAt(h, front, i) ensures exists j :: i < j < |front| && ConsolidatesAt(front, j) {
          assert HitsAt(h, all, i);
          var j :| i < j < |all| && ConsolidatesAt(all, j);
          assert j < |front|;
        }
        assert !HitsAt(h, all, |front|);
      }
      if Settled(h, front) && !HitsAt(h, all, |front|) {
        forall i | 0 <= i < |all| && HitsAt(h, all, i) ensures exists j :: i < j < |all| && ConsolidatesAt(all, j) {
          assert HitsAt(h, front, i);
          var j :| i < j < |front| && ConsolidatesAt(front, j);
          assert ConsolidatesAt(all, j);
        }
      }
    }
  }

  lemma RewriteHitsNothing(h: Header, entries: seq<Entry>, i: nat)
    requires i < |entries| && ConsolidatesAt(entries, i)
    ensures !HitsAt(h, entries, i)
  {
  }

  lemma LastEntryHits(h: Header, front: seq<Entry>, e: Entry)
    requires Run(h, front).Ok?
    ensures var l := Run(h, front).value;
            HitsAt(h, front + [e], |front|) <==>
              e.Delete? && e.pred.Some? && MatcherOf(e.pred.value, l.schema).Ok?
              && AnyMatch(MatcherOf(e.pred.value, l.schema).value, l.live)
    ensures ConsolidatesAt(front + [e], |front|) <==> e.Rewrite? && Run(h, front).value.files > 1
  {
    hide Run, Plain, FilesAfter;
    assert (front + [e])[..|front|] == front;
    RunIsPlain(h, front);
    RunFiles(h, front);
  }

  /** The scan counts the stored rows exactly when no delete has hit since the last consolidation. */
  lemma {:induction false} BalancedExactly(h: Header, entries: seq<Entry>)
    requires Run(h, entries).Ok?
    ensures Balanced(Run(h, entries).value) <==> Settled(h, entries)
  {
    hide Run, Step, Settled, Balanced, Invariant, HitsAt, ConsolidatesAt, Start, MatcherOf, AnyMatch;
    RunLast(h, entries);
    if entries == [] {
      StartBalanced(h);
    } else {
      var front, e := entries[..|entries| - 1], entries[|entries| - 1];
      assert entries == front + [e];
      var l := Run(h, front).value;
      BalancedExactly(h, front);
      RunInvariant(h, front);
      StepBalance(l, |front|, e);
      DeleteCompiles(l, |front|, e);
      SettledSnoc(h, front, e);
      LastEntryHits(h, front, e);
    }
  }

  lemma StartBalanced(h: Header)
    requires Start(h).Ok?
    ensures Balanced(Start(h).value) && Settled(h, [])
  {
  }

  lemma DeleteCompiles(l: Logical, idx: nat, e: Entry)
    requires Step(l, idx, e).Ok?
    ensures e.Delete? ==> e.pred.Some? && MatcherOf(e.pred.value, l.schema).Ok?
    ensures !e.OtherOp?
  {
  }

  /** The newest snapshot's total-records is the number of stored rows. */
  predicate TotalStored(l: Logical) {
    l.commits != [] ==> l.commits[|l.commits| - 1].out.summary.totalRecords == |l.stored|
  }

  lemma StepTotal(l: Logical, idx: nat, e: Entry)
    requires Step(l, idx, e).Ok? && TotalStored(l)
    ensures TotalStored(Step(l, idx, e).value)
  {
    hide MatcherOf, SchemaFields, ToRecords, WriteProblem, ApplyPromotions, AnyMatch, SourceSchema, SourceRows;
  }

  lemma {:induction false} RunTotal(h: Header, entries: seq<Entry>)
    requires Run(h, entries).Ok?
    ensures TotalStored(Run(h, entries).value)
  {
    hide Run, Step;
    RunLast(h, entries);
    if entries != [] {
      hide TotalStored;
      var front := entries[..|entries| - 1];
      RunTotal(h, front);
      StepTotal(Run(h, front).value, |front|, entries[|front|]);
    }
  }

  /**
   The design promises that a scan counts total-records. Under merge-on-read, in every log, it does
   so at latest exactly when no delete has hit a row since the last rewrite of two files or more.
   */
  lemma CountEqualsSummary(h: Header, entries: seq<Entry>)
    requires Run(h, entries).Ok? && Run(h, entries).value.commits != []
    ensures var l := Run(h, entries).value;
            |l.live| == l.commits[|l.commits| - 1].out.summary.totalRecords <==> Settled(h, entries)
  {
    hide Run, Settled;
    BalancedExactly(h, entries);
    RunTotal(h, entries);
  }
}
