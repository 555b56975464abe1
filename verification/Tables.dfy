/**
 Table metadata and the commits the runners ask the library for: one linear history, each snapshot
 with its data files and position-delete files, each commit one sequence number later.
 `Refines` relates a table to the logical state, and one lemma per commit shows it is kept.
 */
module Tables {
  import opened Wrappers
  import opened Seqs
  import opened Values
  import opened Predicates
  import opened Emit
  import opened Layout
  import opened Replay
  import opened ReplayLaws
  import opened BindLaws

  datatype Table = Table(version: nat, schemas: seq<Schema>, snapshots: seq<Snapshot>)

  ghost predicate WellFormed(t: Table) {
    && t.schemas != []
    && (forall i :: 0 <= i < |t.schemas| ==> Widens(t.schemas[i], CurrentSchema(t)))
    && (forall k :: 0 <= k < |t.snapshots| ==> SnapshotOk(t, k))
    && (forall j, k :: 0 <= j < k < |t.snapshots| ==> t.snapshots[j].id != t.snapshots[k].id)
  }

  function CurrentSchema(t: Table): Schema {
    if t.schemas == [] then [] else t.schemas[|t.schemas| - 1]
  }

  ghost predicate SnapshotOk(t: Table, k: nat)
    requires k < |t.snapshots|
  {
    var s := t.snapshots[k];
    && s.seqNo == k + 1
    && s.parent == (if k == 0 then None else Some(t.snapshots[k - 1].id))
    && s.schemaId < |t.schemas|
    && NotNewer(s.files, s.seqNo)
    && DistinctPaths(s.files)
    && forall i :: 0 <= i < |s.deletes| ==> s.deletes[i].seqNo <= s.seqNo
  }

  /** The files and deletes of the current snapshot; none before the first commit. */
  function CurrentFiles(t: Table): seq<DataFile> {
    if t.snapshots == [] then [] else t.snapshots[|t.snapshots| - 1].files
  }

  function CurrentDeletes(t: Table): seq<DeleteFile> {
    if t.snapshots == [] then [] else t.snapshots[|t.snapshots| - 1].deletes
  }

  function NextSeqNo(t: Table): nat {
    |t.snapshots| + 1
  }

  function IdAt(t: Table, k: nat): Option<int> {
    if k < |t.snapshots| then Some(t.snapshots[k].id) else None
  }

  predicate FreshId(t: Table, id: int) {
    forall k :: 0 <= k < |t.snapshots| ==> t.snapshots[k].id != id
  }

  predicate FreshPath(t: Table, path: Path) {
    forall i :: 0 <= i < |CurrentFiles(t)| ==> CurrentFiles(t)[i].path != path
  }

  /** Commit a snapshot with these files; the counts are the library's snapshot summary. */
  function Commit(
    t: Table, id: int, operation: string, files: seq<DataFile>, deletes: seq<DeleteFile>,
    added: nat, removed: nat, newDeletes: nat): Table
  {
    var n := |t.snapshots|;
    var parent := if n == 0 then None else Some(t.snapshots[n - 1].id);
    var schemaId := if t.schemas == [] then 0 else |t.schemas| - 1;
    t.(snapshots := t.snapshots + [Snapshot(id, parent, NextSeqNo(t), operation, files, deletes, newDeletes, schemaId,
         SummaryOf(|StoredRows(files)|, added, removed, |deletes|))])
  }

  function CommitAppend(t: Table, id: int, f: DataFile): Table {
    Commit(t, id, "append", CurrentFiles(t) + [f], CurrentDeletes(t), |f.rows|, 0, 0)
  }

  function CommitRowDelta(t: Table, id: int, d: DeleteFile): Table {
    Commit(t, id, "delete", CurrentFiles(t), CurrentDeletes(t) + [d], 0, 0, 1)
  }

  function CommitRewrite(t: Table, id: int, combined: DataFile): Table {
    Commit(t, id, "replace", [combined], CurrentDeletes(t), |combined.rows|, |StoredRows(CurrentFiles(t))|, 0)
  }

  function CommitSchema(t: Table, s: Schema): Table {
    if s == CurrentSchema(t) then t else t.(schemas := t.schemas + [s])
  }

  // ----- refinement

  /** These files, read under this schema, hold this bag of rows. */
  ghost predicate Holds(s: Schema, files: seq<DataFile>, deletes: seq<DeleteFile>, rows: seq<Record>) {
    SameBag(Map(Project(s), LiveRows(files, deletes)), rows)
  }

  ghost predicate Stores(s: Schema, files: seq<DataFile>, rows: seq<Record>) {
    SameBag(Map(Project(s), StoredRows(files)), rows)
  }

  /** Snapshot `k` reads as commit `k`. */
  ghost predicate ReadsAs(t: Table, k: nat, c: Replay.Commit)
    requires k < |t.snapshots|
  {
    var s := t.snapshots[k];
    && s.schemaId < |t.schemas| && t.schemas[s.schemaId] == c.schema
    && Holds(c.schema, s.files, s.deletes, c.rows)
    && s.summary == c.out.summary && s.operation == c.out.operation
    && DeleteFileOuts(s.addedDeletes) == c.out.deleteFiles
  }

  ghost predicate HistoryReadsAs(t: Table, commits: seq<Replay.Commit>) {
    && |t.snapshots| == |commits|
    && forall k :: 0 <= k < |commits| ==> ReadsAs(t, k, commits[k])
  }

  ghost predicate Refines(t: Table, l: Logical) {
    && WellFormed(t)
    && t.version == l.version
    && CurrentSchema(t) == l.schema
    && HistoryReadsAs(t, l.commits)
    && Holds(l.schema, CurrentFiles(t), CurrentDeletes(t), l.live)
    && Stores(l.schema, CurrentFiles(t), l.stored)
    && |CurrentFiles(t)| == l.files
    && |CurrentDeletes(t)| == l.deletes
  }

  // ----- a commit keeps the past

  /** A commit whose files read as the new logical rows refines the logical commit. */
  lemma CommitRefines(
    t: Table, l: Logical, next: Logical, id: int, operation: string, files: seq<DataFile>,
    deletes: seq<DeleteFile>, added: nat, removed: nat, newDeletes: nat)
    requires Refines(t, l) && FreshId(t, id)
    requires next.version == l.version && next.schema == l.schema && next.commits == l.commits
    requires NotNewer(files, NextSeqNo(t)) && DistinctPaths(files)
    requires forall i :: 0 <= i < |deletes| ==> deletes[i].seqNo <= NextSeqNo(t)
    requires Holds(l.schema, files, deletes, next.live) && Stores(l.schema, files, next.stored)
    requires |files| == next.files && |deletes| == next.deletes
    ensures Refines(Commit(t, id, operation, files, deletes, added, removed, newDeletes),
                    Committed(next, operation, added, removed, newDeletes))
  {
    hide Holds, Stores, NotNewer, DistinctPaths, StoredRows, SummaryOf, DeleteFileOuts, Widens;
    var t' := Commit(t, id, operation, files, deletes, added, removed, newDeletes);
    var l' := Committed(next, operation, added, removed, newDeletes);
    StoredCount(l.schema, files, next.stored);
    forall k | 0 <= k < |t'.snapshots| ensures SnapshotOk(t', k) {
      if k < |t.snapshots| {
        assert t'.snapshots[k] == t.snapshots[k] && SnapshotOk(t, k);
      }
    }
    forall k | 0 <= k < |t'.snapshots| ensures ReadsAs(t', k, l'.commits[k]) {
      if k < |t.snapshots| {
        assert t'.snapshots[k] == t.snapshots[k] && ReadsAs(t, k, l.commits[k]);
      }
    }
  }

  lemma StoredCount(s: Schema, files: seq<DataFile>, stored: seq<Record>)
    requires Stores(s, files, stored)
    ensures |StoredRows(files)| == |stored|
  {
    SameBagMembers(Map(Project(s), StoredRows(files)), stored);
  }

  lemma CurrentBounds(t: Table)
    requires WellFormed(t)
    ensures NotNewer(CurrentFiles(t), |t.snapshots|) && DistinctPaths(CurrentFiles(t))
    ensures forall i :: 0 <= i < |CurrentDeletes(t)| ==> CurrentDeletes(t)[i].seqNo <= |t.snapshots|
  {
    if t.snapshots != [] {
      assert SnapshotOk(t, |t.snapshots| - 1);
    }
  }

  lemma ProjectAppend(s: Schema, a: seq<Record>, rows: seq<Record>, b: seq<Record>)
    requires SameBag(Map(Project(s), a), b) && AllConform(s, rows)
    ensures SameBag(Map(Project(s), a + rows), b + rows)
  {
    MapAppend(Project(s), a, rows);
    ProjectIdentity(s, rows);
  }

  /** `newAppend`: one more file, its rows added to whatever was live. */
  lemma AppendRefines(t: Table, l: Logical, id: int, f: DataFile)
    requires Refines(t, l) && FreshId(t, id) && FreshPath(t, f.path)
    requires f.seqNo == NextSeqNo(t) && AllConform(l.schema, f.rows)
    ensures Refines(CommitAppend(t, id, f),
                    Committed(l.(live := l.live + f.rows, stored := l.stored + f.rows, files := l.files + 1),
                              "append", |f.rows|, 0, 0))
  {
    var files, deletes := CurrentFiles(t), CurrentDeletes(t);
    CurrentBounds(t);
    AppendAddsRows(files, deletes, f);
    ProjectAppend(l.schema, LiveRows(files, deletes), f.rows, l.live);
    ProjectAppend(l.schema, StoredRows(files), f.rows, l.stored);
    CommitRefines(t, l, l.(live := l.live + f.rows, stored := l.stored + f.rows, files := l.files + 1),
                  id, "append", files + [f], deletes, |f.rows|, 0, 0);
  }

  lemma DeleteHolds(s: Schema, m: Matcher, files: seq<DataFile>, deletes: seq<DeleteFile>, d: DeleteFile, rows: seq<Record>)
    requires NotNewer(files, d.seqNo) && ListsMatches(d, files, s, TestOf(m))
    requires Holds(s, files, deletes, rows)
    ensures Holds(s, files, deletes + [d], Filter(Survives(m), rows))
  {
    var phys := LiveRows(files, deletes);
    DeleteRemovesMatches(files, deletes, d, s, TestOf(m));
    FilterMap(Survives(m), Keeps(s, TestOf(m)), Project(s), phys);
    FilterBag(Survives(m), Map(Project(s), phys), rows);
  }

  /** `newRowDelta`: recording every matching position removes exactly the matching live rows. */
  lemma RowDeltaRefines(t: Table, l: Logical, id: int, m: Matcher, d: DeleteFile)
    requires Refines(t, l) && FreshId(t, id)
    requires d.seqNo == NextSeqNo(t) && ListsMatches(d, CurrentFiles(t), l.schema, TestOf(m))
    ensures Refines(CommitRowDelta(t, id, d),
                    Committed(l.(live := Filter(Survives(m), l.live), deletes := l.deletes + 1), "delete", 0, 0, 1))
  {
    CurrentBounds(t);
    DeleteHolds(l.schema, m, CurrentFiles(t), CurrentDeletes(t), d, l.live);
    CommitRefines(t, l, l.(live := Filter(Survives(m), l.live), deletes := l.deletes + 1),
                  id, "delete", CurrentFiles(t), CurrentDeletes(t) + [d], 0, 0, 1);
  }

  /** `newRewrite`: the combined file holds what was read; the old deletes no longer hit anything. */
  lemma RewriteRefines(t: Table, l: Logical, id: int, combined: DataFile)
    requires Refines(t, l) && FreshId(t, id) && l.files > 1
    requires combined.seqNo == NextSeqNo(t)
    requires SameBag(combined.rows, Map(Project(l.schema), LiveRows(CurrentFiles(t), CurrentDeletes(t))))
    requires AllConform(l.schema, combined.rows)
    ensures Refines(CommitRewrite(t, id, combined),
                    Committed(l.(stored := l.live, files := 1), "replace", |l.live|, |l.stored|, 0))
  {
    CurrentBounds(t);
    CompactionReadsWhole(CurrentDeletes(t), combined);
    ProjectIdentity(l.schema, combined.rows);
    SameBagMembers(combined.rows, l.live);
    SameBagMembers(Map(Project(l.schema), StoredRows(CurrentFiles(t))), l.stored);
    CommitRefines(t, l, l.(stored := l.live, files := 1), id, "replace", [combined], CurrentDeletes(t),
                  |l.live|, |l.stored|, 0);
  }

  lemma ProjectHolds(a: Schema, b: Schema, phys: seq<Record>, rows: seq<Record>)
    requires Widens(a, b) && SameBag(Map(Project(a), phys), rows)
    ensures SameBag(Map(Project(b), phys), Map(Project(b), rows))
  {
    ProjectTwice(a, b, phys);
    MapBag(Project(b), Map(Project(a), phys), rows);
  }

  lemma SchemaKeepsTable(t: Table, s: Schema)
    requires WellFormed(t) && Widens(CurrentSchema(t), s)
    ensures WellFormed(CommitSchema(t, s)) && CurrentSchema(CommitSchema(t, s)) == s
  {
    var t' := CommitSchema(t, s);
    forall k | 0 <= k < |t'.snapshots| ensures SnapshotOk(t', k) {
      assert SnapshotOk(t, k);
    }
    WidensRefl(s);
    forall i | 0 <= i < |t.schemas| ensures Widens(t.schemas[i], s) {
      WidensTransitive(t.schemas[i], CurrentSchema(t), s);
    }
  }

  lemma SchemaKeepsHistory(t: Table, s: Schema, commits: seq<Replay.Commit>)
    requires HistoryReadsAs(t, commits)
    ensures HistoryReadsAs(CommitSchema(t, s), commits)
  {
    forall k | 0 <= k < |commits| ensures ReadsAs(CommitSchema(t, s), k, commits[k]) {
      assert ReadsAs(t, k, commits[k]);
    }
  }

  /** `updateSchema`: no file changes, every snapshot keeps the schema it was committed under. */
  lemma SchemaRefines(t: Table, l: Logical, s: Schema)
    requires Refines(t, l) && Widens(l.schema, s)
    ensures Refines(CommitSchema(t, s),
                    l.(schema := s, labels := PositionalLabels(s),
                       live := Map(Project(s), l.live), stored := Map(Project(s), l.stored)))
  {
    SchemaKeepsTable(t, s);
    SchemaKeepsHistory(t, s, l.commits);
    SchemaKeepsRows(t, l, s);
    var t' := CommitSchema(t, s);
    assert CurrentFiles(t') == CurrentFiles(t) && CurrentDeletes(t') == CurrentDeletes(t);
  }

  lemma SchemaKeepsRows(t: Table, l: Logical, s: Schema)
    requires Holds(l.schema, CurrentFiles(t), CurrentDeletes(t), l.live)
    requires Stores(l.schema, CurrentFiles(t), l.stored)
    requires Widens(l.schema, s)
    ensures Holds(s, CurrentFiles(t), CurrentDeletes(t), Map(Project(s), l.live))
    ensures Stores(s, CurrentFiles(t), Map(Project(s), l.stored))
  {
    ProjectHolds(l.schema, s, LiveRows(CurrentFiles(t), CurrentDeletes(t)), l.live);
    ProjectHolds(l.schema, s, StoredRows(CurrentFiles(t)), l.stored);
  }

  // ----- what the position scan finds

  ghost predicate SomeMatch(files: seq<DataFile>, s: Schema, m: Matcher) {
    exists i, pos :: 0 <= i < |files| && 0 <= pos < |files[i].rows| && Matches(m, Project(s)(files[i].rows[pos]))
  }

  lemma {:induction false} StoredHas(files: seq<DataFile>, r: Record)
    ensures r in StoredRows(files) <==>
            exists i, pos :: 0 <= i < |files| && 0 <= pos < |files[i].rows| && files[i].rows[pos] == r
  {
    if files != [] {
      StoredHas(files[1..], r);
      assert forall i :: 0 <= i < |files[1..]| ==> files[1..][i] == files[i + 1];
      assert forall i :: 0 < i < |files| ==> files[i] == files[1..][i - 1];
    }
  }

  /** A position is listed exactly when some stored row, live or dead, matches. */
  lemma SomeMatchIsStored(files: seq<DataFile>, s: Schema, m: Matcher, stored: seq<Record>)
    requires Stores(s, files, stored)
    ensures SomeMatch(files, s, m) <==> AnyMatch(m, stored)
  {
    hide StoredRows, Matches, Project;
    var raw := StoredRows(files);
    SameBagMembers(Map(Project(s), raw), stored);
    if SomeMatch(files, s, m) {
      var i, pos :| 0 <= i < |files| && 0 <= pos < |files[i].rows| && Matches(m, Project(s)(files[i].rows[pos]));
      var r := files[i].rows[pos];
      StoredHas(files, r);
      var j :| 0 <= j < |raw| && raw[j] == r;
      assert Map(Project(s), raw)[j] in stored;
      var k :| 0 <= k < |stored| && stored[k] == Project(s)(r);
      assert Matches(m, stored[k]);
    }
    if AnyMatch(m, stored) {
      var k :| 0 <= k < |stored| && Matches(m, stored[k]);
      assert stored[k] in Map(Project(s), raw);
      var j :| 0 <= j < |raw| && Map(Project(s), raw)[j] == stored[k];
      StoredHas(files, raw[j]);
      var i, pos :| 0 <= i < |files| && 0 <= pos < |files[i].rows| && files[i].rows[pos] == raw[j];
    }
  }
}
