/**
 The physical table: data files, position-delete files and snapshots, with the scan rule of the
 Iceberg table specification's "Position Delete Files" and "Scan Planning" sections. A position
 delete applies to a data file when it names the file and its sequence number is not smaller.
 */
module Layout {
  import opened Wrappers
  import opened Seqs
  import opened Values
  import opened Emit

  /** A data-file location: its prefix word and the index of the op-log entry that wrote it. */
  datatype Path = DataPath(idx: nat) | CompactPath(idx: nat)

  datatype DataFile = DataFile(path: Path, rows: seq<Record>, seqNo: nat)

  datatype PosRef = PosRef(path: Path, pos: nat)

  datatype DeleteFile = DeleteFile(refs: seq<PosRef>, seqNo: nat)

  datatype Snapshot = Snapshot(
    id: int,
    parent: Option<int>,
    seqNo: nat,
    operation: string,
    files: seq<DataFile>,
    deletes: seq<DeleteFile>,
    addedDeletes: nat,
    schemaId: nat,
    summary: Summary)

  // ----- the scan rule

  predicate Applies(d: DeleteFile, f: DataFile, pos: nat) {
    f.seqNo <= d.seqNo && PosRef(f.path, pos) in d.refs
  }

  predicate Deleted(f: DataFile, deletes: seq<DeleteFile>, pos: nat) {
    exists i :: 0 <= i < |deletes| && Applies(deletes[i], f, pos)
  }

  /** The live rows of a file from position `pos` on, in physical order. */
  function LiveFrom(f: DataFile, deletes: seq<DeleteFile>, pos: nat): seq<Record>
    requires pos <= |f.rows|
    decreases |f.rows| - pos
  {
    if pos == |f.rows| then []
    else if Deleted(f, deletes, pos) then LiveFrom(f, deletes, pos + 1)
    else [f.rows[pos]] + LiveFrom(f, deletes, pos + 1)
  }

  function LiveReader(deletes: seq<DeleteFile>): DataFile -> seq<Record> {
    f => LiveFrom(f, deletes, 0)
  }

  function RawReader(): DataFile -> seq<Record> {
    (f: DataFile) => f.rows
  }

  /** The rows a scan of these files yields, in the order the files are planned. */
  function LiveRows(files: seq<DataFile>, deletes: seq<DeleteFile>): seq<Record> {
    FlatMap(LiveReader(deletes), files)
  }

  /** Every row held by the files, deleted or not. */
  function StoredRows(files: seq<DataFile>): seq<Record> {
    FlatMap(RawReader(), files)
  }

  predicate DistinctPaths(files: seq<DataFile>) {
    forall i, j :: 0 <= i < j < |files| ==> files[i].path != files[j].path
  }

  // ----- deletes

  /** `test` on the row after projection, negated: what a delete keeps. */
  function Keeps(s: Schema, test: Record -> bool): Record -> bool {
    r => !test(Project(s)(r))
  }

  /** The positions `collectPositions` lists for these files: all that match, deleted or not. */
  ghost predicate ListsMatches(d: DeleteFile, files: seq<DataFile>, s: Schema, test: Record -> bool) {
    forall i, pos :: 0 <= i < |files| && 0 <= pos < |files[i].rows| ==>
      (PosRef(files[i].path, pos) in d.refs <==> test(Project(s)(files[i].rows[pos])))
  }

  predicate NotNewer(files: seq<DataFile>, seqNo: nat) {
    forall i :: 0 <= i < |files| ==> files[i].seqNo <= seqNo
  }

  lemma DeletedByAppended(f: DataFile, deletes: seq<DeleteFile>, d: DeleteFile, pos: nat)
    ensures Deleted(f, deletes + [d], pos) <==> Deleted(f, deletes, pos) || Applies(d, f, pos)
  {
    var all := deletes + [d];
    assert all[|deletes|] == d;
    if Deleted(f, deletes, pos) {
      var i :| 0 <= i < |deletes| && Applies(deletes[i], f, pos);
      assert all[i] == deletes[i];
    }
  }

  lemma {:induction false} DeleteOnFile(
    f: DataFile, deletes: seq<DeleteFile>, d: DeleteFile, s: Schema, test: Record -> bool, pos: nat)
    requires pos <= |f.rows|
    requires f.seqNo <= d.seqNo
    requires forall p :: 0 <= p < |f.rows| ==> (PosRef(f.path, p) in d.refs <==> test(Project(s)(f.rows[p])))
    ensures LiveFrom(f, deletes + [d], pos) == Filter(Keeps(s, test), LiveFrom(f, deletes, pos))
    decreases |f.rows| - pos
  {
    hide Deleted, Filter, Project, LiveFrom, Keeps, Applies;
    if pos == |f.rows| {
      LiveEnd(f, deletes, Keeps(s, test));
      LiveEnd(f, deletes + [d], Keeps(s, test));
    } else {
      AppliesToMatches(f, d, s, test, pos);
      DeleteOnFile(f, deletes, d, s, test, pos + 1);
      DeletedByAppended(f, deletes, d, pos);
      LiveStep(f, deletes, pos);
      LiveStep(f, deletes + [d], pos);
      FilterStep(Keeps(s, test), f.rows[pos], LiveFrom(f, deletes, pos + 1), Deleted(f, deletes, pos));
    }
  }

  lemma LiveEnd(f: DataFile, deletes: seq<DeleteFile>, keep: Record -> bool)
    ensures LiveFrom(f, deletes, |f.rows|) == [] && Filter(keep, []) == []
  {
  }

  /** A row that was already gone, or that the filter drops, adds nothing to the filtered rest. */
  lemma {:induction false} FilterStep<A>(keep: A -> bool, x: A, rest: seq<A>, gone: bool)
    ensures Filter(keep, if gone then rest else [x] + rest) ==
              if gone || !keep(x) then Filter(keep, rest) else [x] + Filter(keep, rest)
  {
    FilterCons(keep, x, rest);
  }

  lemma AppliesToMatches(f: DataFile, d: DeleteFile, s: Schema, test: Record -> bool, pos: nat)
    requires pos < |f.rows| && f.seqNo <= d.seqNo
    requires PosRef(f.path, pos) in d.refs <==> test(Project(s)(f.rows[pos]))
    ensures Applies(d, f, pos) <==> !Keeps(s, test)(f.rows[pos])
  {
  }

  lemma LiveStep(f: DataFile, deletes: seq<DeleteFile>, pos: nat)
    requires pos < |f.rows|
    ensures LiveFrom(f, deletes, pos) ==
              if Deleted(f, deletes, pos) then LiveFrom(f, deletes, pos + 1)
              else [f.rows[pos]] + LiveFrom(f, deletes, pos + 1)
  {
  }

  /** A delete file that lists every match removes exactly the matching live rows. */
  lemma {:induction false} DeleteRemovesMatches(
    files: seq<DataFile>, deletes: seq<DeleteFile>, d: DeleteFile, s: Schema, test: Record -> bool)
    requires NotNewer(files, d.seqNo) && ListsMatches(d, files, s, test)
    ensures LiveRows(files, deletes + [d]) == Filter(Keeps(s, test), LiveRows(files, deletes))
  {
    if files != [] {
      assert ListsMatches(d, files[1..], s, test) by {
        assert forall i :: 0 <= i < |files[1..]| ==> files[1..][i] == files[i + 1];
      }
      assert NotNewer(files[1..], d.seqNo);
      DeleteRemovesMatches(files[1..], deletes, d, s, test);
      DeleteOnFile(files[0], deletes, d, s, test, 0);
      FilterAppend(Keeps(s, test), LiveFrom(files[0], deletes, 0), LiveRows(files[1..], deletes));
    }
  }

  // ----- files no delete can reach

  predicate Untouched(f: DataFile, deletes: seq<DeleteFile>) {
    forall i :: 0 <= i < |deletes| ==> deletes[i].seqNo < f.seqNo
  }

  /** A file newer than every delete is read whole, whatever positions the old deletes list. */
  lemma {:induction false} UntouchedReadsWhole(f: DataFile, deletes: seq<DeleteFile>, pos: nat)
    requires Untouched(f, deletes) && pos <= |f.rows|
    ensures LiveFrom(f, deletes, pos) == f.rows[pos..]
    decreases |f.rows| - pos
  {
    if pos < |f.rows| {
      UntouchedReadsWhole(f, deletes, pos + 1);
      assert f.rows[pos..] == [f.rows[pos]] + f.rows[pos + 1..];
    }
  }

  /** Appending a file newer than every delete adds its rows and disturbs no other. */
  lemma AppendAddsRows(files: seq<DataFile>, deletes: seq<DeleteFile>, f: DataFile)
    requires Untouched(f, deletes)
    ensures LiveRows(files + [f], deletes) == LiveRows(files, deletes) + f.rows
    ensures StoredRows(files + [f]) == StoredRows(files) + f.rows
  {
    FlatMapAppend(LiveReader(deletes), files, [f]);
    FlatMapAppend(RawReader(), files, [f]);
    UntouchedReadsWhole(f, deletes, 0);
    assert [f][1..] == [];
    assert f.rows + [] == f.rows;
    assert f.rows[0..] == f.rows;
    assert LiveRows([f], deletes) == f.rows + FlatMap(LiveReader(deletes), []);
    assert StoredRows([f]) == f.rows + FlatMap(RawReader(), []);
  }

  /** After compaction the leftover deletes hit nothing: the combined file is its own live set. */
  lemma CompactionReadsWhole(deletes: seq<DeleteFile>, f: DataFile)
    requires Untouched(f, deletes)
    ensures LiveRows([f], deletes) == f.rows
    ensures StoredRows([f]) == f.rows
  {
    AppendAddsRows([], deletes, f);
    assert [] + [f] == [f];
    assert [] + f.rows == f.rows;
  }

  /** Scan order is free: any plan of the same files yields the same bag of rows. */
  lemma PlanOrderFree(files: seq<DataFile>, plan: seq<DataFile>, deletes: seq<DeleteFile>, s: Schema)
    requires SameBag(files, plan)
    ensures SameBag(Map(Project(s), LiveRows(files, deletes)), Map(Project(s), LiveRows(plan, deletes)))
    ensures SameBag(StoredRows(files), StoredRows(plan))
  {
    FlatMapBag(LiveReader(deletes), files, plan);
    FlatMapBag(RawReader(), files, plan);
    MapBag(Project(s), LiveRows(files, deletes), LiveRows(plan, deletes));
  }

  // ----- what the scan counts

  lemma {:induction false} LiveFromLength(f: DataFile, deletes: seq<DeleteFile>, pos: nat)
    requires pos <= |f.rows|
    ensures |LiveFrom(f, deletes, pos)| <= |f.rows| - pos
    ensures |LiveFrom(f, deletes, pos)| == |f.rows| - pos <==>
            forall p :: pos <= p < |f.rows| ==> !Deleted(f, deletes, p)
    decreases |f.rows| - pos
  {
    if pos < |f.rows| {
      LiveFromLength(f, deletes, pos + 1);
    }
  }

  /** The scan count falls short of the stored count exactly when a current row is deleted. */
  lemma {:induction false} LiveCount(files: seq<DataFile>, deletes: seq<DeleteFile>)
    ensures |LiveRows(files, deletes)| <= |StoredRows(files)|
    ensures |LiveRows(files, deletes)| == |StoredRows(files)| <==>
            forall i, p :: 0 <= i < |files| && 0 <= p < |files[i].rows| ==> !Deleted(files[i], deletes, p)
  {
    if files != [] {
      LiveFromLength(files[0], deletes, 0);
      LiveCount(files[1..], deletes);
      assert forall i :: 0 <= i < |files[1..]| ==> files[1..][i] == files[i + 1];
      assert forall i :: 0 < i < |files| ==> files[i] == files[1..][i - 1];
    }
  }
}
