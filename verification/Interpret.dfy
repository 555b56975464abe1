/**
 `Interpret.java`: the runner state machine over a merge-on-read table. Its fields are the source's;
 the ghost field `spec` is the logical state it has to agree with after every entry.
 */
module Interpret {
  import opened Wrappers
  import opened Seqs
  import opened Values
  import opened Predicates
  import opened Emit
  import opened Layout
  import opened Replay
  import opened ReplayLaws
  import opened Tables
  import opened PositionDeletes

  // ----- what the fields promise

  /** Recorded ids and ordinals are in one-to-one correspondence. */
  ghost predicate OrdinalsMatch(t: Table, ordinals: map<int, nat>) {
    && (forall k :: 0 <= k < |t.snapshots| ==> t.snapshots[k].id in ordinals && ordinals[t.snapshots[k].id] == k)
    && (forall id :: id in ordinals ==> ordinals[id] < |t.snapshots| && t.snapshots[ordinals[id]].id == id)
  }

  ghost predicate BindsMatch(t: Table, binds: map<string, int>, spec: map<string, nat>) {
    && binds.Keys == spec.Keys
    && forall b :: b in spec ==> spec[b] < |t.snapshots| && binds[b] == t.snapshots[spec[b]].id
  }

  predicate SnapshotsMatch(out: seq<SnapshotOut>, commits: seq<Replay.Commit>) {
    |out| == |commits| && forall k :: 0 <= k < |out| ==> out[k] == commits[k].out
  }

  /** Every path in use was written by an entry before `idx`. */
  predicate PathsBefore(files: seq<DataFile>, idx: nat) {
    forall i :: 0 <= i < |files| ==> files[i].path.idx < idx
  }

  datatype Output = Output(snapshots: seq<SnapshotOut>, observations: seq<Observation>)

  /** What a run is specified to emit. */
  ghost predicate EmitsLike(out: Output, l: Logical) {
    SnapshotsMatch(out.snapshots, l.commits) && SameObservations(out.observations, l.observations)
  }

  lemma FreshPathFromIndex(t: Table, idx: nat, path: Path)
    requires PathsBefore(CurrentFiles(t), idx) && path.idx == idx
    ensures FreshPath(t, path)
  {
  }

  /** Everything but the bookkeeping of ordinals agrees with the logical state. */
  ghost predicate StateAgrees(
    t: Table, labels: Labels, authored: map<int, string>, version: nat, binds: map<string, int>,
    observations: seq<Observation>, l: Logical)
  {
    && Refines(t, l) && Invariant(l)
    && labels == l.labels && authored == l.authored && version == l.version
    && BindsMatch(t, binds, l.binds)
    && SameObservations(observations, l.observations)
  }

  /** Every commit has been given its ordinal and emitted. */
  ghost predicate BooksAgree(t: Table, ordinals: map<int, nat>, next: nat, outs: seq<SnapshotOut>, l: Logical) {
    next == |l.commits| && OrdinalsMatch(t, ordinals) && SnapshotsMatch(outs, l.commits)
  }

  /** The books cover all snapshots but at most the newest. */
  ghost predicate BooksBehind(t: Table, ordinals: map<int, nat>, next: nat, outs: seq<SnapshotOut>, l: Logical) {
    && next <= |t.snapshots| <= next + 1
    && |t.snapshots| == |l.commits|
    && OrdinalsMatch(FirstSnapshots(t, next), ordinals)
    && SnapshotsMatch(outs, l.commits[..next])
  }

  class Interpret {
    var table: Table
    var canonIds: Labels
    var authoredIdToName: map<int, string>
    var snapshotOrdinal: map<int, nat>
    var nextOrdinal: nat
    var binds: map<string, int>
    var formatVersion: nat
    var snapshots: seq<SnapshotOut>
    var observations: seq<Observation>
    ghost var spec: Logical

    ghost predicate Agrees()
      reads `table, `spec, `canonIds, `authoredIdToName, `formatVersion, `binds, `observations
    {
      StateAgrees(table, canonIds, authoredIdToName, formatVersion, binds, observations, spec)
    }

    ghost predicate Valid()
      reads this
    {
      Agrees() && BooksAgree(table, snapshotOrdinal, nextOrdinal, snapshots, spec)
    }

    /** The class is in the state this step ends in, and every path in use is older than `idx`. */
    ghost predicate Advanced(r: StepResult, idx: nat)
      reads this
    {
      Valid() && r == Ok(spec) && PathsBefore(CurrentFiles(table), idx)
    }

    constructor (h: Header)
      requires Start(h).Ok?
      ensures Valid() && spec == Start(h).value && PathsBefore(CurrentFiles(table), 0)
    {
      var schema := BuildSchema(h.fields);
      table := Table(h.version, [schema], []);
      canonIds := AuthoredLabels(h.fields);
      authoredIdToName := AuthoredNames(h.fields);
      snapshotOrdinal := map[];
      nextOrdinal := 0;
      binds := map[];
      formatVersion := h.version;
      snapshots := [];
      observations := [];
      spec := Start(h).value;
      new;
      StartInvariant(h);
      WidensRefl(schema);
    }

    /** The catalog numbers a commit with an id it has not used. */
    method FreshSnapshotId() returns (id: int)
      ensures FreshId(table, id)
    {
      id := 0;
      var k := 0;
      while k < |table.snapshots|
        invariant 0 <= k <= |table.snapshots|
        invariant forall j :: 0 <= j < k ==> table.snapshots[j].id < id
      {
        if table.snapshots[k].id >= id {
          id := table.snapshots[k].id + 1;
        }
        k := k + 1;
      }
    }

    /** `recordSnapshot`, after a commit the logical state already counts. */
    method RecordSnapshot() returns (err: Option<RunError>)
      requires Agrees() && BooksBehind(table, snapshotOrdinal, nextOrdinal, snapshots, spec)
      modifies `snapshotOrdinal, `nextOrdinal, `snapshots
      ensures err == if spec.commits == [] then Some(Failure(NoSnapshot)) else None
      ensures err == None ==> Valid()
      ensures spec == old(spec) && table == old(table)
    {
      hide Refines, Invariant, BindsMatch, SameObservations, BooksAgree, BooksBehind;
      SameLength(table, spec);
      err := None;
      if table.snapshots == [] {
        err := Some(Failure(NoSnapshot));
        return;
      }
      var snap := table.snapshots[|table.snapshots| - 1];
      if snap.id in snapshotOrdinal {
        AlreadyRecorded(table, snapshotOrdinal, nextOrdinal, snapshots, spec);
        return;
      }
      var ordinal := nextOrdinal;
      var parent: Option<nat> := None;
      if snap.parent.Some? && snap.parent.value in snapshotOrdinal {
        parent := Some(snapshotOrdinal[snap.parent.value]);
      }
      var deleteFiles := AddedDeleteFiles(snap.addedDeletes);
      var so := SnapshotOut(ordinal, parent, snap.operation, snap.summary, deleteFiles);
      NewlyRecorded(table, snapshotOrdinal, nextOrdinal, snapshots, spec, so);
      snapshotOrdinal := snapshotOrdinal[snap.id := ordinal];
      nextOrdinal := ordinal + 1;
      snapshots := snapshots + [so];
    }

    /** `doAppend`. */
    method DoAppend(idx: nat, rows: seq<RowIn>) returns (err: Option<RunError>)
      requires Valid() && PathsBefore(CurrentFiles(table), idx)
      modifies this
      ensures err == ErrorOf(StepAppend(old(spec), rows))
      ensures err == None ==> Advanced(StepAppend(old(spec), rows), idx + 1)
    {
      hide BooksAgree, BindsMatch, SameObservations, Refines, Invariant, CommitAppend, Committed, BooksBehind;
      err := None;
      SameSchema(table, spec);
      var s := CurrentSchema(table);
      var records := ToRecords(s, rows);
      if records.Err? {
        return Some(Failure(records.error));
      }
      var problem := WriteProblem(s, records.value);
      if problem.Some? {
        return Some(Failure(problem.value));
      }
      var f := DataFile(DataPath(idx), records.value, NextSeqNo(table));
      var id := FreshSnapshotId();
      ghost var next := StepAppend(spec, rows).value;
      AppendStepRefines(table, spec, id, f, idx, rows);
      AppendStepShape(table, spec, id, f, rows);
      SameLength(table, spec);
      BooksFallBehind(table, CommitAppend(table, id, f), snapshotOrdinal, nextOrdinal, snapshots, spec, next);
      BindsKept(table, CommitAppend(table, id, f), binds, spec.binds);
      table, spec := CommitAppend(table, id, f), next;
      err := RecordSnapshot();
    }

    /** `doDelete`. */
    method DoDelete(idx: nat, kind: string, pred: Option<Pred>) returns (err: Option<RunError>)
      requires Valid() && PathsBefore(CurrentFiles(table), idx)
      modifies this
      ensures err == ErrorOf(StepDelete(old(spec), idx, kind, pred))
      ensures err == None ==> Advanced(StepDelete(old(spec), idx, kind, pred), idx + 1)
    {
      hide BooksAgree, BindsMatch, SameObservations, Refines, Invariant;
      err := None;
      if kind == "equality" {
        return Some(Unsupported(idx, "delete.merge-on-read.equality"));
      }
      if kind == "deletion-vector" || formatVersion >= 3 {
        return Some(Unsupported(idx, "delete.merge-on-read.deletion-vector"));
      }
      if pred == None {
        return Some(Failure(MissingPredicate));
      }
      var id := FreshSnapshotId();
      var t', deleteError := DeleteByPredicate(table, pred.value, id, spec);
      if deleteError.Some? {
        return deleteError;
      }
      ghost var m := MatcherOf(pred.value, spec.schema).value;
      ghost var next := if AnyMatch(m, spec.stored) then StepDelete(spec, idx, kind, pred).value else spec;
      DeleteStepKeeps(table, t', spec, next, idx, kind, pred);
      BooksFallBehind(table, t', snapshotOrdinal, nextOrdinal, snapshots, spec, next);
      BindsKept(table, t', binds, spec.binds);
      table, spec := t', next;
      err := RecordSnapshot();
    }

    /** `doRewrite`: swap the current files for one that holds every live row. */
    method DoRewrite(idx: nat) returns (err: Option<RunError>)
      requires Valid() && PathsBefore(CurrentFiles(table), idx)
      modifies this
      ensures err == ErrorOf(StepRewrite(old(spec)))
      ensures err == None ==> Advanced(StepRewrite(old(spec)), idx + 1)
    {
      hide BooksAgree, BindsMatch, SameObservations, Invariant, Refines, WellFormed, BooksBehind;
      hide CommitRewrite, StepRewrite, Project, LiveRows;
      err := None;
      FilesCounted(table, spec);
      var plan := PlanFiles(CurrentFiles(table));
      var toDelete: set<DataFile> := {};
      var i := 0;
      while i < |plan|
        invariant 0 <= i <= |plan|
        invariant toDelete == set f | f in plan[..i]
      {
        toDelete := toDelete + {plan[i]};
        i := i + 1;
      }
      assert plan[..i] == plan;
      PlanSetSize(table, plan, toDelete);
      if |toDelete| <= 1 {
        return;
      }
      var rows := ReadRows(CurrentFiles(table), CurrentDeletes(table), CurrentSchema(table));
      var combined := DataFile(CompactPath(idx), rows, NextSeqNo(table));
      var id := FreshSnapshotId();
      ghost var next := StepRewrite(spec).value;
      RewriteStepRefines(table, spec, id, combined, idx);
      assert WriteProblem(CurrentSchema(table), rows) == None;
      BooksFallBehind(table, CommitRewrite(table, id, combined), snapshotOrdinal, nextOrdinal, snapshots, spec, next);
      BindsKept(table, CommitRewrite(table, id, combined), binds, spec.binds);
      table, spec := CommitRewrite(table, id, combined), next;
      err := RecordSnapshot();
    }

    /** `doEvolveSchema`, for promote-type changes: no snapshot is committed. */
    method DoEvolve(idx: nat, changes: seq<Promotion>) returns (err: Option<RunError>)
      requires Valid() && PathsBefore(CurrentFiles(table), idx)
      modifies this
      ensures err == ErrorOf(StepEvolve(old(spec), changes))
      ensures err == None ==> Advanced(StepEvolve(old(spec), changes), idx + 1)
    {
      hide BooksAgree, SameObservations, Invariant, Refines, BindsMatch;
      err := None;
      var s: Schema;
      SchemaOf(table, spec);
      s, err := PromoteColumns(CurrentSchema(table), authoredIdToName, changes);
      if err.Some? {
        return;
      }
      ghost var next := StepEvolve(spec, changes).value;
      EvolveStepRefines(table, spec, changes, s);
      BooksKept(table, CommitSchema(table, s), snapshotOrdinal, nextOrdinal, snapshots, spec, next);
      BindsKept(table, CommitSchema(table, s), binds, spec.binds);
      table, canonIds, spec := CommitSchema(table, s), PositionalLabels(s), next;
    }

    /** `snapshotForOrdinal`: search the recorded ids, in whatever order the map yields them. */
    method SnapshotForOrdinal(ordinal: int) returns (id: Option<int>)
      requires Valid()
      ensures id == if 0 <= ordinal < |spec.commits| then IdAt(table, ordinal) else None
    {
      var rest := snapshotOrdinal.Keys;
      while rest != {}
        invariant rest <= snapshotOrdinal.Keys
        invariant forall k :: k in snapshotOrdinal && k !in rest ==> snapshotOrdinal[k] != ordinal
        decreases rest
      {
        var snapId := AnyOf(rest);
        if snapshotOrdinal[snapId] == ordinal {
          return Some(snapId);
        }
        rest := rest - {snapId};
      }
      id := None;
    }

    /** `schemaAt`: the schema the pinned commit was made under; the current one when nothing is pinned. */
    method SchemaAt(snapId: Option<int>) returns (s: Schema)
      requires Valid()
      ensures s == SourceSchema(spec, SnapshotWith(table, snapId))
    {
      hide Invariant, Refines, BooksAgree, SameObservations, BindsMatch;
      AgreesParts(table, canonIds, authoredIdToName, formatVersion, binds, observations, spec);
      s := CurrentSchema(table);
      var k := SnapshotWith(table, snapId);
      SourceReads(table, spec, k, k);
      if k.Some? && table.snapshots[k.value].schemaId < |table.schemas| {
        s := table.schemas[table.snapshots[k.value].schemaId];
      }
    }

    /** The snapshot an `at` value names; None for latest. */
    method ResolveAt(at: At) returns (snapId: Option<int>, err: Option<RunError>)
      requires Valid()
      ensures match ObserveSource(spec, at) {
                case Err(p) => err == Some(Failure(p))
                case Ok(source) => err == None && SnapshotWith(table, snapId) == source
              }
    {
      hide Invariant, Refines, SnapshotsMatch, OrdinalsMatch, SameObservations, BindsMatch;
      snapId, err := None, None;
      AgreesParts(table, canonIds, authoredIdToName, formatVersion, binds, observations, spec);
      match at {
        case Ordinal(k) =>
          snapId := SnapshotForOrdinal(k);
          if snapId == None {
            return None, Some(Failure(UnknownOrdinal(k)));
          }
        case Named(n) =>
          if n != "latest" {
            BindKnown(table, binds, spec.binds, n);
            if n !in binds {
              return None, Some(Failure(UnknownBind(n)));
            }
            snapId := Some(binds[n]);
          }
      }
      SourceLocated(table, spec, at, binds, ObserveSource(spec, at).value, snapId);
    }

    /** Scan the snapshot under its own schema, or the current state under the current one. */
    method ReadAt(snapId: Option<int>) returns (s: Schema, records: seq<Record>)
      requires Valid()
      ensures s == SourceSchema(spec, SnapshotWith(table, snapId))
      ensures SameBag(records, SourceRows(spec, SnapshotWith(table, snapId)))
    {
      hide Invariant, Refines, BooksAgree, SameObservations, BindsMatch;
      AgreesParts(table, canonIds, authoredIdToName, formatVersion, binds, observations, spec);
      var from := SnapshotWith(table, snapId);
      SourceReads(table, spec, from, from);
      s := SchemaAt(snapId);
      var files := if from.Some? then table.snapshots[from.value].files else CurrentFiles(table);
      var deletes := if from.Some? then table.snapshots[from.value].deletes else CurrentDeletes(table);
      records := ReadRows(files, deletes, s);
    }

    /** `doObserve`: read at latest, at an ordinal or at a bind; then record the bind. */
    method DoObserve(idx: nat, at: At, bind: Option<string>) returns (err: Option<RunError>)
      requires Valid() && PathsBefore(CurrentFiles(table), idx)
      modifies this
      ensures err == ErrorOf(StepObserve(old(spec), at, bind))
      ensures err == None ==> Advanced(StepObserve(old(spec), at, bind), idx + 1)
    {
      hide StateAgrees, BooksAgree, StepObserve, ObserveSource, AtEcho, SourceRows, SourceSchema;
      hide SchemaFields, Invariant, Map;
      AgreesParts(table, canonIds, authoredIdToName, formatVersion, binds, observations, spec);
      ObserveInvariant(spec, at, bind);
      var snapId: Option<int>;
      snapId, err := ResolveAt(at);
      if err.Some? {
        return;
      }
      ghost var source := SnapshotWith(table, snapId);
      var s, records := ReadAt(snapId);
      SourceLabelled(spec, source);
      var fields := SchemaFields(s, canonIds).value;
      var decoded := DecodeAll(s, canonIds, records);
      MapBag(Decoder(s, canonIds), records, SourceRows(spec, source));
      var obs := Observation(AtEcho(at, bind), bind, fields, decoded);
      ghost var next := StepObserve(spec, at, bind).value;
      ObserveStateAgrees(table, canonIds, authoredIdToName, formatVersion, binds, observations, spec, next, at, bind, obs);
      BooksKept(table, table, snapshotOrdinal, nextOrdinal, snapshots, spec, next);
      observations := observations + [obs];
      if bind.Some? && table.snapshots != [] {
        binds := binds[bind.value := table.snapshots[|table.snapshots| - 1].id];
      }
      spec := next;
    }

    /** `applyEntry`. */
    method ApplyEntry(idx: nat, e: Entry) returns (err: Option<RunError>)
      requires Valid() && PathsBefore(CurrentFiles(table), idx)
      modifies this
      ensures err == ErrorOf(Step(old(spec), idx, e))
      ensures err == None ==> Advanced(Step(old(spec), idx, e), idx + 1)
    {
      hide StateAgrees, BooksAgree;
      match e {
        case Append(rows) => err := DoAppend(idx, rows);
        case Delete(kind, pred) => err := DoDelete(idx, kind, pred);
        case Evolve(changes) => err := DoEvolve(idx, changes);
        case Rewrite => err := DoRewrite(idx);
        case Observe(at, bind) => err := DoObserve(idx, at, bind);
        case OtherOp(op) => err := Some(Unsupported(idx, if op == "evolve-spec" then "evolve-spec" else "op." + op));
      }
    }

    /** What has been emitted so far. */
    method Emitted() returns (out: Output)
      requires Valid()
      ensures EmitsLike(out, spec)
    {
      out := Output(snapshots, observations);
    }
  }

  /**
   `run`: create the table and apply every entry. The output has the snapshots the logical run
   commits and, observation by observation, its schema and its bag of rows; a run that fails fails
   with the logical run's error.
   */
  method Execute(h: Header, entries: seq<Entry>) returns (r: Result<Output, RunError>)
    ensures match Run(h, entries) {
              case Ok(l) => r.Ok? && EmitsLike(r.value, l)
              case Err(e) => r == Err(e)
            }
  {
    hide StateAgrees, BooksAgree, EmitsLike, Step, Start;
    StartFails(h);
    if !DistinctNames(BuildSchema(h.fields)) {
      RunSplit(h, [], entries);
      assert [] + entries == entries;
      return Err(Failure(DuplicateColumn));
    }
    var runner := new Interpret(h);
    var i := 0;
    while i < |entries|
      invariant 0 <= i <= |entries|
      invariant fresh(runner)
      invariant runner.Valid() && PathsBefore(CurrentFiles(runner.table), i)
      invariant Run(h, entries[..i]) == Ok(runner.spec)
    {
      RunNext(h, entries, i);
      var err := runner.ApplyEntry(i, entries[i]);
      if err.Some? {
        return Err(err.value);
      }
      i := i + 1;
    }
    assert entries[..i] == entries;
    var out := runner.Emitted();
    return Ok(out);
  }

  /** Emitted snapshot `i` has ordinal `i` and parent `i - 1`, whatever entries committed nothing. */
  lemma OrdinalsFollowCommits(h: Header, entries: seq<Entry>, out: Output)
    requires Run(h, entries).Ok? && EmitsLike(out, Run(h, entries).value)
    ensures forall i :: 0 <= i < |out.snapshots| ==>
              out.snapshots[i].ordinal == i && out.snapshots[i].parent == ParentOf(i)
  {
    RunInvariant(h, entries);
  }

  lemma StartFails(h: Header)
    ensures Start(h) == if DistinctNames(BuildSchema(h.fields)) then Ok(Start(h).value) else Err(Failure(DuplicateColumn))
  {
  }

  /** One more entry: the run goes on from its state, or the whole run fails with this error. */
  lemma RunNext(h: Header, entries: seq<Entry>, i: nat)
    requires i < |entries| && Run(h, entries[..i]).Ok?
    ensures Run(h, entries[..i + 1]) == Step(Run(h, entries[..i]).value, i, entries[i])
    ensures Run(h, entries[..i + 1]).Err? ==> Run(h, entries) == Run(h, entries[..i + 1])
  {
    hide Step;
    assert entries[..i + 1] == entries[..i] + [entries[i]];
    RunSnoc(h, entries[..i], entries[i]);
    RunSplit(h, entries[..i + 1], entries[i + 1..]);
    assert entries[..i + 1] + entries[i + 1..] == entries;
  }

  /** Where `useSnapshot(id)` finds its snapshot; None when the read is not pinned. */
  function SnapshotWith(t: Table, snapId: Option<int>): (k: Option<nat>)
    ensures k.Some? ==> k.value < |t.snapshots| && snapId.Some? && t.snapshots[k.value].id == snapId.value
    ensures k.None? && snapId.Some? ==> forall i :: 0 <= i < |t.snapshots| ==> t.snapshots[i].id != snapId.value
  {
    if snapId.None? then None else FindSnapshot(t, snapId.value, |t.snapshots|)
  }

  function FindSnapshot(t: Table, id: int, n: nat): (k: Option<nat>)
    requires n <= |t.snapshots|
    ensures k.Some? ==> k.value < n && t.snapshots[k.value].id == id
    ensures k.None? ==> forall i :: 0 <= i < n ==> t.snapshots[i].id != id
  {
    if n == 0 then None else if t.snapshots[n - 1].id == id then Some(n - 1) else FindSnapshot(t, id, n - 1)
  }

  lemma AgreesParts(
    t: Table, labels: Labels, authored: map<int, string>, version: nat, binds: map<string, int>,
    observations: seq<Observation>, l: Logical)
    requires StateAgrees(t, labels, authored, version, binds, observations, l)
    ensures |t.snapshots| == |l.commits| && Invariant(l) && labels == l.labels
  {
  }

  /** The observation and the bind an observe adds are those of the logical step. */
  lemma ObserveStateAgrees(
    t: Table, labels: Labels, authored: map<int, string>, version: nat, binds: map<string, int>,
    outs: seq<Observation>, l: Logical, next: Logical, at: At, bind: Option<string>, obs: Observation)
    requires StateAgrees(t, labels, authored, version, binds, outs, l)
    requires StepObserve(l, at, bind) == Ok(next) && ObserveSource(l, at).Ok?
    requires var source := ObserveSource(l, at).value;
             && obs.at == AtEcho(at, bind) && obs.bind == bind
             && SchemaFields(SourceSchema(l, source), labels) == Ok(obs.icebergSchema)
             && SameBag(obs.decodedRows, Map(Decoder(SourceSchema(l, source), labels), SourceRows(l, source)))
    ensures StateAgrees(t, labels, authored, version,
                        if bind.Some? && t.snapshots != [] then binds[bind.value := t.snapshots[|t.snapshots| - 1].id] else binds,
                        outs + [obs], next)
    ensures next.commits == l.commits
  {
    hide Invariant, Refines, SameObservations, BindsMatch, StepObserve, ObserveSource, AtEcho;
    AgreesParts(t, labels, authored, version, binds, outs, l);
    ObserveInvariant(l, at, bind);
    ObservationAdded(outs, l.observations, obs, next.observations);
    BindRecorded(t, l, binds, bind);
    ObserveKeepsTable(t, l, next);
  }

  lemma BindKnown(t: Table, binds: map<string, int>, spec: map<string, nat>, n: string)
    requires BindsMatch(t, binds, spec)
    ensures n in binds <==> n in spec
  {
  }

  /** The snapshot an observe pins is the commit the logical observe reads. */
  lemma SourceLocated(t: Table, l: Logical, at: At, binds: map<string, int>, source: Option<nat>, snapId: Option<int>)
    requires Refines(t, l) && Invariant(l) && BindsMatch(t, binds, l.binds)
    requires ObserveSource(l, at) == Ok(source)
    requires match at
             case Ordinal(k) => k >= 0 && snapId == IdAt(t, k)
             case Named(n) => if n == "latest" then snapId == None else n in binds && snapId == Some(binds[n])
    ensures SnapshotWith(t, snapId) == source
  {
    if source.Some? {
      var k := SnapshotWith(t, snapId);
      assert t.snapshots[source.value].id == snapId.value;
      assert k.Some?;
    }
  }

  /** Reading the pinned files under the pinned schema gives the commit's rows. */
  lemma SourceReads(t: Table, l: Logical, source: Option<nat>, from: Option<nat>)
    requires Refines(t, l) && from == source && (source.Some? ==> source.value < |l.commits|)
    ensures |t.snapshots| == |l.commits| && CurrentSchema(t) == l.schema
    ensures from.Some? ==>
              && t.snapshots[from.value].schemaId < |t.schemas|
              && t.schemas[t.snapshots[from.value].schemaId] == SourceSchema(l, source)
    ensures Holds(SourceSchema(l, source),
                  if from.Some? then t.snapshots[from.value].files else CurrentFiles(t),
                  if from.Some? then t.snapshots[from.value].deletes else CurrentDeletes(t),
                  SourceRows(l, source))
  {
    if source.Some? {
      assert ReadsAs(t, source.value, l.commits[source.value]);
    }
  }

  /** `Decode.row` for every record read. */
  method DecodeAll(s: Schema, labels: Labels, records: seq<Record>) returns (decoded: seq<DecodedRow>)
    ensures decoded == Map(Decoder(s, labels), records)
  {
    decoded := [];
    var i := 0;
    while i < |records|
      invariant 0 <= i <= |records|
      invariant decoded == Map(Decoder(s, labels), records[..i])
    {
      assert records[..i + 1] == records[..i] + [records[i]];
      MapSnoc(Decoder(s, labels), records[..i], records[i]);
      decoded := decoded + [DecodeColumns(s, labels, records[i])];
      i := i + 1;
    }
    assert records[..i] == records;
  }

  lemma ObservationAdded(outs: seq<Observation>, spec: seq<Observation>, obs: Observation, spec': seq<Observation>)
    requires SameObservations(outs, spec) && |spec'| == |spec| + 1 && spec <= spec'
    requires SameObservation(obs, spec'[|spec|])
    ensures SameObservations(outs + [obs], spec')
  {
  }

  lemma BindRecorded(t: Table, l: Logical, binds: map<string, int>, bind: Option<string>)
    requires BindsMatch(t, binds, l.binds) && |t.snapshots| == |l.commits|
    ensures bind.None? || l.commits == [] ==> BindsMatch(t, binds, l.binds)
    ensures bind.Some? && l.commits != [] ==>
              BindsMatch(t, binds[bind.value := t.snapshots[|t.snapshots| - 1].id], l.binds[bind.value := |l.commits| - 1])
  {
  }

  lemma ObserveKeepsTable(t: Table, l: Logical, next: Logical)
    requires Refines(t, l) && next == l.(observations := next.observations, binds := next.binds)
    ensures Refines(t, next)
  {
  }

  /** The `updateColumn` calls of one evolve-schema entry, in order. */
  method PromoteColumns(start: Schema, authored: map<int, string>, changes: seq<Promotion>)
    returns (s: Schema, err: Option<RunError>)
    ensures match ApplyPromotions(start, authored, changes) {
              case Ok(t) => err == None && s == t
              case Err(p) => err == Some(Failure(p))
            }
  {
    s, err := start, None;
    var i := 0;
    while i < |changes|
      invariant 0 <= i <= |changes|
      invariant ApplyPromotions(s, authored, changes[i..]) == ApplyPromotions(start, authored, changes)
    {
      var c := changes[i];
      if c.fieldId !in authored {
        return s, Some(Failure(UnknownFieldId(c.fieldId)));
      }
      var name := authored[c.fieldId];
      if TypeOf(s, name).None? || !LegalPromotion(TypeOf(s, name).value, c.to) {
        return s, Some(Failure(IllegalPromotion(name)));
      }
      s := RetypeFrom(s, name, c.to);
      assert changes[i..][1..] == changes[i + 1..];
      i := i + 1;
    }
    assert changes[i..] == [];
  }

  lemma SchemaOf(t: Table, l: Logical)
    requires Refines(t, l)
    ensures CurrentSchema(t) == l.schema
  {
  }

  lemma EvolvedSchema(l: Logical, changes: seq<Promotion>, s: Schema)
    requires ApplyPromotions(l.schema, l.authored, changes) == Ok(s)
    ensures StepEvolve(l, changes) == Ok(l.(schema := s, labels := PositionalLabels(s),
                                            live := Map(Project(s), l.live), stored := Map(Project(s), l.stored)))
  {
  }

  lemma EvolveStepRefines(t: Table, l: Logical, changes: seq<Promotion>, s: Schema)
    requires Refines(t, l) && Invariant(l)
    requires ApplyPromotions(l.schema, l.authored, changes) == Ok(s)
    ensures Refines(CommitSchema(t, s), StepEvolve(l, changes).value) && Invariant(StepEvolve(l, changes).value)
    ensures CurrentFiles(CommitSchema(t, s)) == CurrentFiles(t)
  {
    hide Invariant, Refines, ApplyPromotions, PositionalLabels, Project, Map;
    EvolveInvariant(l, changes);
    EvolvedSchema(l, changes, s);
    SchemaOf(t, l);
    SchemaRefines(t, l, s);
  }

  lemma BooksKept(
    t: Table, t': Table, ordinals: map<int, nat>, next: nat, outs: seq<SnapshotOut>, l: Logical, l': Logical)
    requires BooksAgree(t, ordinals, next, outs, l)
    requires t'.snapshots == t.snapshots && l'.commits == l.commits
    ensures BooksAgree(t', ordinals, next, outs, l')
  {
  }

  /** The state after `DeleteByPredicate`, whether it committed or not. */
  lemma DeleteStepKeeps(
    t: Table, t': Table, l: Logical, next: Logical, idx: nat, kind: string, pred: Option<Pred>)
    requires Refines(t, l) && Invariant(l) && PathsBefore(CurrentFiles(t), idx)
    requires kind != "equality" && kind != "deletion-vector" && l.version < 3 && pred.Some?
    requires MatcherOf(pred.value, l.schema).Ok?
    requires var m := MatcherOf(pred.value, l.schema).value;
             if !AnyMatch(m, l.stored) then t' == t && next == l
             else
               && StepDelete(l, idx, kind, pred).Ok? && next == StepDelete(l, idx, kind, pred).value
               && Refines(t', next) && CurrentFiles(t') == CurrentFiles(t)
               && |t'.snapshots| == |t.snapshots| + 1 && t'.snapshots[..|t.snapshots|] == t.snapshots
    ensures Refines(t', next) && Invariant(next) && PathsBefore(CurrentFiles(t'), idx + 1)
    ensures t.snapshots <= t'.snapshots && l.commits <= next.commits
    ensures |t.snapshots| == |l.commits| && |t'.snapshots| == |next.commits| <= |l.commits| + 1
    ensures next.binds == l.binds && next.labels == l.labels && next.authored == l.authored
    ensures next.version == l.version && next.observations == l.observations
    ensures StepDelete(l, idx, kind, pred) == if next.commits == [] then Err(Failure(NoSnapshot)) else Ok(next)
  {
    hide MatcherOf, Matches, AnyMatch, WellFormed, Holds, Stores, Filter;
    if AnyMatch(MatcherOf(pred.value, l.schema).value, l.stored) {
      DeleteInvariant(l, idx, kind, pred);
    }
  }

  lemma {:induction false} SetOfDistinct(plan: seq<DataFile>)
    requires Distinct(plan)
    ensures |set f | f in plan| == |plan|
  {
    if plan != [] {
      SetOfDistinct(plan[1..]);
      assert (set f | f in plan) == {plan[0]} + set f | f in plan[1..];
      assert plan[0] !in plan[1..];
    }
  }

  /** The set of planned files has as many members as the table has files. */
  lemma PlanSetSize(t: Table, plan: seq<DataFile>, files: set<DataFile>)
    requires WellFormed(t) && SameBag(CurrentFiles(t), plan) && files == set f | f in plan
    ensures |files| == |CurrentFiles(t)|
  {
    CurrentBounds(t);
    SameBagMembers(CurrentFiles(t), plan);
    DistinctCounts(CurrentFiles(t));
    DistinctCounts(plan);
    SetOfDistinct(plan);
  }

  /** Scan the live rows of these files under a schema, in the order the plan happens to give. */
  method ReadRows(files: seq<DataFile>, deletes: seq<DeleteFile>, s: Schema) returns (rows: seq<Record>)
    ensures SameBag(rows, Map(Project(s), LiveRows(files, deletes)))
  {
    var plan := PlanFiles(files);
    rows := [];
    var i := 0;
    while i < |plan|
      invariant 0 <= i <= |plan|
      invariant rows == Map(Project(s), LiveRows(plan[..i], deletes))
    {
      ReadOneMore(plan, deletes, s, i);
      rows := rows + Map(Project(s), LiveFrom(plan[i], deletes, 0));
      i := i + 1;
    }
    assert plan[..i] == plan;
    PlanOrderFree(files, plan, deletes, s);
  }

  /** Rows read back conform to the schema and have every required column. */
  lemma ReadRowsAreLive(t: Table, l: Logical, rows: seq<Record>)
    requires Refines(t, l) && Invariant(l)
    requires SameBag(rows, Map(Project(l.schema), LiveRows(CurrentFiles(t), CurrentDeletes(t))))
    ensures SameBag(rows, l.live) && AllConform(l.schema, rows)
    ensures WriteProblem(l.schema, rows) == None
  {
    hide Refines, Invariant, LiveRows, RecordProblem, Conforms, Map, Project, WriteProblem;
    LiveHeld(t, l);
    LiveWritable(l);
    SameBagMembers(rows, l.live);
    NoWriteProblem(l.schema, rows);
    forall i | 0 <= i < |rows| ensures Conforms(l.schema, rows[i]) {
      assert rows[i] in rows;
    }
  }

  lemma LiveHeld(t: Table, l: Logical)
    requires Refines(t, l)
    ensures SameBag(Map(Project(l.schema), LiveRows(CurrentFiles(t), CurrentDeletes(t))), l.live)
  {
    hide WellFormed, HistoryReadsAs, Stores;
  }

  /** Live rows have the schema's types and can be written again. */
  lemma LiveWritable(l: Logical)
    requires Invariant(l)
    ensures forall r :: r in l.live ==> Conforms(l.schema, r) && RecordProblem(l.schema, r) == None
  {
    forall r | r in l.live ensures Conforms(l.schema, r) && RecordProblem(l.schema, r) == None {
      var j :| 0 <= j < |l.live| && l.live[j] == r;
      assert Conforms(l.schema, l.live[j]);
      assert r in l.stored;
    }
  }

  /** One more file of the plan adds its own rows. */
  lemma ReadOneMore(plan: seq<DataFile>, deletes: seq<DeleteFile>, s: Schema, i: nat)
    requires i < |plan|
    ensures Map(Project(s), LiveRows(plan[..i + 1], deletes)) ==
              Map(Project(s), LiveRows(plan[..i], deletes)) + Map(Project(s), LiveFrom(plan[i], deletes, 0))
  {
    FlatMapAppend(LiveReader(deletes), plan[..i], [plan[i]]);
    assert [plan[i]][1..] == [];
    assert LiveRows([plan[i]], deletes) == LiveFrom(plan[i], deletes, 0) + [];
    hide Map, LiveFrom;
    assert plan[..i + 1] == plan[..i] + [plan[i]];
    MapAppend(Project(s), LiveRows(plan[..i], deletes), LiveFrom(plan[i], deletes, 0));
  }

  lemma FilesCounted(t: Table, l: Logical)
    requires Refines(t, l)
    ensures WellFormed(t) && |CurrentFiles(t)| == l.files && |t.snapshots| == |l.commits|
    ensures StepRewrite(l).Ok? && (l.files <= 1 ==> StepRewrite(l) == Ok(l))
  {
  }

  /** The commit of a rewrite: the rows read can be written, and the table is the next logical state's. */
  lemma RewriteStepRefines(t: Table, l: Logical, id: int, combined: DataFile, idx: nat)
    requires Refines(t, l) && Invariant(l) && FreshId(t, id) && PathsBefore(CurrentFiles(t), idx)
    requires l.files > 1 && combined.path == CompactPath(idx) && combined.seqNo == NextSeqNo(t)
    requires SameBag(combined.rows, Map(Project(CurrentSchema(t)), LiveRows(CurrentFiles(t), CurrentDeletes(t))))
    ensures WriteProblem(CurrentSchema(t), combined.rows) == None
    ensures StepRewrite(l).Ok?
    ensures var t', next := CommitRewrite(t, id, combined), StepRewrite(l).value;
            && Refines(t', next) && Invariant(next) && PathsBefore(CurrentFiles(t'), idx + 1)
            && t.snapshots <= t'.snapshots && l.commits <= next.commits
            && |t'.snapshots| == |next.commits| == |l.commits| + 1
            && next == l.(stored := next.stored, files := next.files, commits := next.commits)
  {
    hide Invariant, WellFormed, Holds, Stores, Project, LiveRows, WriteProblem;
    FilesCounted(t, l);
    SchemaOf(t, l);
    ReadRowsAreLive(t, l, combined.rows);
    RewriteInvariant(l);
    RewriteRefines(t, l, id, combined);
  }

  function ErrorOf(r: StepResult): Option<RunError> {
    if r.Err? then Some(r.error) else None
  }

  /** The commit of an append, and where its file lies. */
  lemma AppendStepRefines(t: Table, l: Logical, id: int, f: DataFile, idx: nat, rows: seq<RowIn>)
    requires Refines(t, l) && Invariant(l) && FreshId(t, id) && PathsBefore(CurrentFiles(t), idx)
    requires StepAppend(l, rows).Ok?
    requires f == DataFile(DataPath(idx), ToRecords(l.schema, rows).value, NextSeqNo(t))
    ensures Refines(CommitAppend(t, id, f), StepAppend(l, rows).value)
    ensures Invariant(StepAppend(l, rows).value)
    ensures PathsBefore(CurrentFiles(CommitAppend(t, id, f)), idx + 1)
  {
    SchemaIsDistinct(l);
    hide Refines, Invariant, CommitAppend, ToRecords, WriteProblem, Committed, PathsBefore;
    AppendInvariant(l, rows);
    ToRecordsConform(l.schema, rows);
    FreshPathFromIndex(t, idx, f.path);
    AppendRefines(t, l, id, f);
    PathsAfterAppend(t, id, f, idx);
  }

  /** An append moves on by one snapshot and one commit, and touches neither labels, binds nor observations. */
  lemma AppendStepShape(t: Table, l: Logical, id: int, f: DataFile, rows: seq<RowIn>)
    requires StepAppend(l, rows).Ok?
    ensures var t', next := CommitAppend(t, id, f), StepAppend(l, rows).value;
            && t.snapshots <= t'.snapshots && |t'.snapshots| == |t.snapshots| + 1
            && l.commits <= next.commits && |next.commits| == |l.commits| + 1
            && next == l.(live := next.live, stored := next.stored, files := next.files, commits := next.commits)
  {
    hide ToRecords, WriteProblem;
  }

  lemma SchemaIsDistinct(l: Logical)
    requires Invariant(l)
    ensures DistinctNames(l.schema)
  {
  }

  lemma PathsAfterAppend(t: Table, id: int, f: DataFile, idx: nat)
    requires PathsBefore(CurrentFiles(t), idx) && f.path == DataPath(idx)
    ensures PathsBefore(CurrentFiles(CommitAppend(t, id, f)), idx + 1)
  {
  }

  /** After one more commit the books cover all snapshots but the newest. */
  lemma BooksFallBehind(
    t: Table, t': Table, ordinals: map<int, nat>, next: nat, outs: seq<SnapshotOut>, l: Logical, l': Logical)
    requires BooksAgree(t, ordinals, next, outs, l) && |t.snapshots| == |l.commits|
    requires t.snapshots <= t'.snapshots && l.commits <= l'.commits
    requires |t'.snapshots| == |l'.commits| <= |l.commits| + 1
    ensures BooksBehind(t', ordinals, next, outs, l')
  {
    assert FirstSnapshots(t', next).snapshots == t.snapshots;
    assert l'.commits[..next] == l.commits;
    forall id | id in ordinals ensures ordinals[id] < next && t'.snapshots[..next][ordinals[id]].id == id {
      assert t.snapshots[ordinals[id]].id == id;
    }
    forall k | 0 <= k < next
      ensures t'.snapshots[..next][k].id in ordinals && ordinals[t'.snapshots[..next][k].id] == k
    {
      assert t.snapshots[k].id in ordinals;
    }
  }

  lemma BindsKept(t: Table, t': Table, binds: map<string, int>, spec: map<string, nat>)
    requires BindsMatch(t, binds, spec) && t.snapshots <= t'.snapshots
    ensures BindsMatch(t', binds, spec)
  {
  }

  lemma SameSchema(t: Table, l: Logical)
    requires Refines(t, l)
    ensures CurrentSchema(t) == l.schema
  {
  }

  lemma SameLength(t: Table, l: Logical)
    requires Refines(t, l)
    ensures |t.snapshots| == |l.commits|
  {
  }

  function FirstSnapshots(t: Table, n: nat): Table
    requires n <= |t.snapshots|
  {
    t.(snapshots := t.snapshots[..n])
  }

  method AddedDeleteFiles(n: nat) returns (outs: seq<DeleteFileOut>)
    ensures outs == DeleteFileOuts(n)
  {
    outs := [];
    var i := 0;
    while i < n
      invariant 0 <= i <= n
      invariant outs == DeleteFileOuts(i)
    {
      outs := [DeleteFileOut(1, "parquet")] + outs;
      i := i + 1;
    }
  }

  /** The snapshot just committed is emitted as the logical commit is. */
  lemma NewSnapshotOut(t: Table, l: Logical, outs: seq<SnapshotOut>, so: SnapshotOut)
    requires Refines(t, l) && Invariant(l) && l.commits != []
    requires SnapshotsMatch(outs, l.commits[..|l.commits| - 1])
    requires var n := |l.commits| - 1; var snap := t.snapshots[n];
             so == SnapshotOut(n, ParentOf(n), snap.operation, snap.summary, DeleteFileOuts(snap.addedDeletes))
    ensures SnapshotsMatch(outs + [so], l.commits)
  {
    var n := |l.commits| - 1;
    assert ReadsAs(t, n, l.commits[n]);
    forall k | 0 <= k <= n ensures (outs + [so])[k] == l.commits[k].out {
      assert k < n ==> outs[k] == l.commits[..n][k].out;
    }
  }

  lemma AlreadyRecorded(t: Table, ordinals: map<int, nat>, next: nat, outs: seq<SnapshotOut>, l: Logical)
    requires Refines(t, l) && t.snapshots != [] && BooksBehind(t, ordinals, next, outs, l)
    requires t.snapshots[|t.snapshots| - 1].id in ordinals
    ensures BooksAgree(t, ordinals, next, outs, l)
  {
    var k := ordinals[t.snapshots[|t.snapshots| - 1].id];
    assert FirstSnapshots(t, next).snapshots[k] == t.snapshots[k];
    assert k == |t.snapshots| - 1;
    assert t.snapshots[..next] == t.snapshots;
    assert l.commits[..next] == l.commits;
  }

  /** The newest snapshot gets the next ordinal, and its parent's is the one before. */
  lemma NewlyRecorded(
    t: Table, ordinals: map<int, nat>, next: nat, outs: seq<SnapshotOut>, l: Logical, so: SnapshotOut)
    requires Refines(t, l) && Invariant(l) && t.snapshots != [] && BooksBehind(t, ordinals, next, outs, l)
    requires t.snapshots[|t.snapshots| - 1].id !in ordinals
    requires var snap := t.snapshots[|t.snapshots| - 1];
             var parent := if snap.parent.Some? && snap.parent.value in ordinals
                           then Some(ordinals[snap.parent.value]) else None;
             so == SnapshotOut(next, parent, snap.operation, snap.summary, DeleteFileOuts(snap.addedDeletes))
    ensures BooksAgree(t, ordinals[t.snapshots[|t.snapshots| - 1].id := next], next + 1, outs + [so], l)
  {
    NewOrdinal(t, ordinals, next);
    NewSnapshotOut(t, l, outs, so);
  }

  lemma NewOrdinal(t: Table, ordinals: map<int, nat>, next: nat)
    requires WellFormed(t) && t.snapshots != [] && next <= |t.snapshots| <= next + 1
    requires OrdinalsMatch(FirstSnapshots(t, next), ordinals)
    requires t.snapshots[|t.snapshots| - 1].id !in ordinals
    ensures next == |t.snapshots| - 1
    ensures OrdinalsMatch(t, ordinals[t.snapshots[next].id := next])
    ensures var parent := t.snapshots[next].parent;
            if next == 0 then parent == None
            else parent.Some? && parent.value in ordinals && ordinals[parent.value] == next - 1
  {
    var before, last := FirstSnapshots(t, next), |t.snapshots| - 1;
    assert forall k :: 0 <= k < next ==> before.snapshots[k] == t.snapshots[k];
    assert forall k :: 0 <= k < next ==> before.snapshots[k].id in ordinals;
    assert SnapshotOk(t, last);
    var all := ordinals[t.snapshots[next].id := next];
    forall k | 0 <= k < |t.snapshots| ensures t.snapshots[k].id in all && all[t.snapshots[k].id] == k {
      if k < next {
        assert before.snapshots[k].id in ordinals;
      }
    }
    forall id | id in all ensures all[id] < |t.snapshots| && t.snapshots[all[id]].id == id {
      if id != t.snapshots[next].id {
        assert before.snapshots[ordinals[id]].id == id;
      }
    }
  }
}
