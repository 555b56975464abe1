/** `state.go`: the live table the generator builds its ops against, and what ties it to the log. */
module GenState {
  import opened Text
  import opened Seqs
  import opened GenLog

  // ----- what the fields promise about the log so far

  predicate HasKey(live: seq<GenRow>, k: string) {
    exists i :: 0 <= i < |live| && live[i].rowKey == k
  }

  /** The live rows by key; a promotion may have re-tagged the state's copies. */
  ghost predicate TracksRows(rows: map<string, GenRow>, live: seq<GenRow>) {
    && (forall i :: 0 <= i < |live| ==> live[i].rowKey in rows && SameCells(rows[live[i].rowKey], live[i]))
    && (forall k :: k in rows ==> HasKey(live, k))
    && Distinct(Keys(live))
  }

  lemma KeysHas(live: seq<GenRow>, k: string)
    ensures k in Keys(live) <==> HasKey(live, k)
  {
    if HasKey(live, k) {
      var i :| 0 <= i < |live| && live[i].rowKey == k;
      assert Keys(live)[i] == k;
    }
    if k in Keys(live) {
      var i :| 0 <= i < |Keys(live)| && Keys(live)[i] == k;
      assert live[i].rowKey == k;
    }
  }

  lemma TracksKeys(rows: map<string, GenRow>, live: seq<GenRow>, k: string)
    requires TracksRows(rows, live)
    ensures k in rows <==> k in Keys(live)
  {
    KeysHas(live, k);
    if HasKey(live, k) {
      var i :| 0 <= i < |live| && live[i].rowKey == k;
      assert live[i].rowKey in rows;
    }
  }

  function RowKeyText(i: nat): string {
    "r" + Itoa(i)
  }

  function BindText(i: nat): string {
    "b" + Itoa(i)
  }

  lemma NamesSpelled(i: nat)
    ensures RowKeyText(i) == "r" + Itoa(i) && BindText(i) == "b" + Itoa(i)
  {
  }

  predicate OlderKey(k: string, next: nat) {
    exists i: nat :: i < next && k == RowKeyText(i)
  }

  predicate OlderKeys(keys: set<string>, next: nat) {
    forall k :: k in keys ==> OlderKey(k, next)
  }

  predicate TracksBinds(binds: seq<string>, names: set<string>) {
    && (forall i :: 0 <= i < |binds| ==> binds[i] == BindText(i) && binds[i] in names)
    && (forall b :: b in names ==> exists i :: 0 <= i < |binds| && binds[i] == b)
  }

  /** Column 1 identifies rows: present and required. */
  predicate HasIdColumn(schema: seq<GenField>) {
    && DistinctFields(schema)
    && FieldIndex(schema, 1).Some?
    && schema[FieldIndex(schema, 1).value].required
  }

  function IdName(schema: seq<GenField>): string
    requires HasIdColumn(schema)
  {
    schema[FieldIndex(schema, 1).value].name
  }

  function IdType(schema: seq<GenField>): string
    requires HasIdColumn(schema)
  {
    schema[FieldIndex(schema, 1).value].ty
  }

  predicate IdCellOk(ty: string, name: string, r: GenRow) {
    name in r.vals && !r.vals[name].isNull && IsCanonical(ty, r.vals[name].scalar)
  }

  ghost predicate IdsOk(g: Replayed) {
    HasIdColumn(g.schema) && forall i :: 0 <= i < |g.live| ==> IdCellOk(IdType(g.schema), IdName(g.schema), g.live[i])
  }

  /** The state's copies carry the id column's current type as tag, promoted or not. */
  predicate IdTagsOk(schema: seq<GenField>, rows: map<string, GenRow>) {
    HasIdColumn(schema) ==>
      forall k :: k in rows ==> IdName(schema) in rows[k].vals && rows[k].vals[IdName(schema)].tag == TagOf(IdType(schema))
  }

  predicate LiveKnown(g: Replayed) {
    forall i :: 0 <= i < |g.live| ==> g.live[i].rowKey in g.keys
  }

  /** The generator's state agrees with the replay of what it has logged. */
  ghost predicate Tracks(
    schema: seq<GenField>, rows: map<string, GenRow>, binds: seq<string>, nextRowKey: nat, g: Replayed)
  {
    && schema == g.schema && TracksRows(rows, g.live) && LiveKnown(g) && OlderKeys(g.keys, nextRowKey)
    && TracksBinds(binds, g.binds) && IdsOk(g) && IdTagsOk(schema, rows)
  }

  /** Keys printed from different counters differ. */
  lemma RowKeyFresh(keys: set<string>, next: nat, n: nat)
    requires OlderKeys(keys, next) && n >= next
    ensures RowKeyText(n) !in keys
  {
    if RowKeyText(n) in keys {
      var i: nat :| i < next && RowKeyText(n) == RowKeyText(i);
      assert RowKeyText(n)[1..] == Itoa(n) && RowKeyText(i)[1..] == Itoa(i);
      ItoaInjective(n, i);
    }
  }

  lemma RowKeyInjective(m: nat, n: nat)
    ensures RowKeyText(m) == RowKeyText(n) <==> m == n
  {
    assert RowKeyText(m)[1..] == Itoa(m) && RowKeyText(n)[1..] == Itoa(n);
    ItoaInjective(m, n);
  }

  /** A bind name is never one used before, and never the word latest. */
  lemma BindFresh(binds: seq<string>, names: set<string>)
    requires TracksBinds(binds, names)
    ensures BindText(|binds|) !in names && BindText(|binds|) != "latest" && BindText(|binds|) != ""
    ensures TracksBinds(binds + [BindText(|binds|)], names + {BindText(|binds|)})
  {
    var b := BindText(|binds|);
    assert b[0] == 'b' && "latest"[0] == 'l';
    if b in names {
      var i :| 0 <= i < |binds| && binds[i] == b;
      assert BindText(i)[1..] == Itoa(i) && b[1..] == Itoa(|binds|);
      ItoaInjective(i, |binds|);
    }
    var all := binds + [b];
    forall x | x in names + {b} ensures exists i :: 0 <= i < |all| && all[i] == x {
      if x in names {
        var i :| 0 <= i < |binds| && binds[i] == x;
        assert all[i] == x;
      } else {
        assert all[|binds|] == x;
      }
    }
  }

  // ----- sorted key listings

  /** Any sorted listing of the state's keys is the sorted list of the replay's live keys. */
  lemma SortedKeysUnique(rows: map<string, GenRow>, live: seq<GenRow>, keys: seq<string>)
    requires TracksRows(rows, live)
    requires Distinct(keys) && SortedBy(Self, keys) && forall k :: k in keys <==> k in rows
    ensures keys == SortStrings(Keys(live))
  {
    forall k ensures multiset(keys)[k] == multiset(Keys(live))[k] {
      DistinctCounts(keys);
      DistinctCounts(Keys(live));
      assert k in multiset(keys) <==> k in keys;
      assert k in multiset(Keys(live)) <==> k in Keys(live);
      TracksKeys(rows, live, k);
    }
    assert SameBag(keys, Keys(live));
    SortedIsFixed(keys);
    SortStringsCanonical(keys, Keys(live));
  }

  lemma SortedIsFixed(s: seq<string>)
    requires SortedBy(Self, s)
    ensures SortStrings(s) == s
  {
    StableSortCorrect(Self, s);
    SortedClassesUnique(Self, SortStrings(s), s);
  }

  // ----- the updates, on values

  function WithRows(m: map<string, GenRow>, rows: seq<GenRow>): map<string, GenRow> {
    if rows == [] then m else WithRows(m, rows[..|rows| - 1])[rows[|rows| - 1].rowKey := rows[|rows| - 1]]
  }

  lemma AddRowTracks(m: map<string, GenRow>, live: seq<GenRow>, r: GenRow)
    requires TracksRows(m, live) && Distinct(Keys(live + [r]))
    ensures TracksRows(m[r.rowKey := r], live + [r])
  {
    var all, after := live + [r], m[r.rowKey := r];
    forall i | 0 <= i < |all| ensures all[i].rowKey in after && SameCells(after[all[i].rowKey], all[i]) {
      if i < |live| {
        assert Keys(all)[i] != Keys(all)[|live|];
        assert all[i] == live[i];
      }
    }
    forall k | k in after ensures HasKey(all, k) {
      if k == r.rowKey {
        assert all[|live|].rowKey == k;
      } else {
        assert HasKey(live, k);
        var i :| 0 <= i < |live| && live[i].rowKey == k;
        assert all[i].rowKey == k;
      }
    }
  }

  lemma {:induction false} WithRowsTracks(m: map<string, GenRow>, live: seq<GenRow>, rows: seq<GenRow>)
    requires TracksRows(m, live) && Distinct(Keys(live + rows))
    ensures TracksRows(WithRows(m, rows), live + rows)
  {
    if rows == [] {
      assert live + rows == live;
    } else {
      hide TracksRows;
      var front, last := rows[..|rows| - 1], rows[|rows| - 1];
      assert live + rows == (live + front) + [last];
      assert forall i :: 0 <= i < |live + front| ==> Keys(live + front)[i] == Keys(live + rows)[i];
      WithRowsTracks(m, live, front);
      AddRowTracks(WithRows(m, front), live + front, last);
    }
  }

  lemma KeptRow(live: seq<GenRow>, kept: GenRow -> bool, gone: set<string>, k: string)
    requires forall i :: 0 <= i < |live| ==> (live[i].rowKey in gone <==> !kept(live[i]))
    requires HasKey(live, k) && k !in gone
    ensures HasKey(Filter(kept, live), k)
  {
    var rest := Filter(kept, live);
    var j :| 0 <= j < |live| && live[j].rowKey == k;
    FilterIn(kept, live, live[j]);
    assert live[j] in rest;
    var i :| 0 <= i < |rest| && rest[i] == live[j];
    assert rest[i].rowKey == k;
  }

  /** Dropping exactly the keys of the rows a delete hits leaves the rows it misses. */
  lemma WithoutKeysTracks(rows: map<string, GenRow>, live: seq<GenRow>, kept: GenRow -> bool, gone: set<string>)
    requires TracksRows(rows, live)
    requires forall i :: 0 <= i < |live| ==> (live[i].rowKey in gone <==> !kept(live[i]))
    ensures TracksRows(rows - gone, Filter(kept, live))
  {
    var rest := Filter(kept, live);
    forall i | 0 <= i < |live| ensures live[i].rowKey in KeySet(Keys(live)) {
      assert Keys(live)[i] == live[i].rowKey;
    }
    FilterKeepsDistinct(kept, live, KeySet(Keys(live)));
    forall i | 0 <= i < |rest| ensures rest[i].rowKey in rows - gone && SameCells(rows[rest[i].rowKey], rest[i]) {
      FilterIn(kept, live, rest[i]);
      assert rest[i] in live;
      var j :| 0 <= j < |live| && live[j] == rest[i];
    }
    forall k | k in rows - gone ensures HasKey(rest, k) {
      assert HasKey(live, k);
      KeptRow(live, kept, gone, k);
    }
  }

  lemma RetagTracks(rows: map<string, GenRow>, after: map<string, GenRow>, live: seq<GenRow>, name: string, to: string)
    requires TracksRows(rows, live)
    requires after.Keys == rows.Keys && forall k :: k in rows ==> after[k] == RetagCell(rows[k], name, to)
    ensures TracksRows(after, live)
  {
    forall i | 0 <= i < |live| ensures live[i].rowKey in after && SameCells(after[live[i].rowKey], live[i]) {
      assert SameCells(rows[live[i].rowKey], live[i]);
    }
  }

  lemma {:induction false} WithRowsIdTags(schema: seq<GenField>, m: map<string, GenRow>, rows: seq<GenRow>)
    requires HasIdColumn(schema) && IdTagsOk(schema, m)
    requires forall i :: 0 <= i < |rows| ==> RowFits(schema, rows[i])
    ensures IdTagsOk(schema, WithRows(m, rows))
  {
    if rows != [] {
      WithRowsIdTags(schema, m, rows[..|rows| - 1]);
      TypeNamedAt(schema, FieldIndex(schema, 1).value);
      assert RowFits(schema, rows[|rows| - 1]);
    }
  }

  // ----- the class

  /** A row's value map. It is shared: the log and the state refer to one map per row. */
  class Cells {
    ghost const key: string
    var vals: map<string, TypedVal>

    constructor (ghost key: string, vals: map<string, TypedVal>)
      ensures this.key == key && this.vals == vals
    {
      this.key := key;
      this.vals := vals;
    }
  }

  datatype Row = Row(rowKey: string, cells: Cells)

  function Read(r: Row): GenRow
    reads r.cells
  {
    GenRow(r.rowKey, r.cells.vals)
  }

  /** Every row is filed under its own key, and so are its cells. */
  ghost predicate Owned(rows: map<string, Row>) {
    forall k :: k in rows ==> rows[k].rowKey == k && rows[k].cells.key == k
  }

  ghost predicate OwnRows(rows: seq<Row>) {
    forall i :: 0 <= i < |rows| ==> rows[i].cells.key == rows[i].rowKey
  }

  ghost function FootprintOf(rows: map<string, Row>): set<Cells> {
    set k | k in rows :: rows[k].cells
  }

  /** The rows as they read now. */
  ghost function ViewOf(rows: map<string, Row>): map<string, GenRow>
    reads FootprintOf(rows)
  {
    map k | k in rows :: Read(rows[k])
  }

  ghost function CellsOfRows(rows: seq<Row>): set<Cells> {
    set i | 0 <= i < |rows| :: rows[i].cells
  }

  ghost predicate RowsRead(rows: seq<Row>, out: seq<GenRow>)
    reads CellsOfRows(rows)
  {
    |rows| == |out| && forall i :: 0 <= i < |rows| ==> out[i] == Read(rows[i])
  }

  function WithLive(m: map<string, Row>, rows: seq<Row>): map<string, Row> {
    if rows == [] then m else WithLive(m, rows[..|rows| - 1])[rows[|rows| - 1].rowKey := rows[|rows| - 1]]
  }

  lemma {:induction false} ViewWithLive(m: map<string, Row>, rows: seq<Row>, out: seq<GenRow>)
    requires RowsRead(rows, out)
    ensures ViewOf(WithLive(m, rows)) == WithRows(ViewOf(m), out)
  {
    if rows != [] {
      var front, read := rows[..|rows| - 1], out[..|out| - 1];
      assert forall i :: 0 <= i < |front| ==> front[i] == rows[i] && read[i] == out[i];
      ViewWithLive(m, front, read);
      assert out[|out| - 1] == Read(rows[|rows| - 1]);
    }
  }

  lemma ViewWithout(m: map<string, Row>, gone: set<string>)
    ensures ViewOf(m - gone) == ViewOf(m) - gone
  {
  }

  lemma {:induction false} OwnedWithLive(m: map<string, Row>, rows: seq<Row>)
    requires Owned(m) && OwnRows(rows)
    ensures Owned(WithLive(m, rows))
    ensures forall k :: k in WithLive(m, rows) ==>
              (k in m && WithLive(m, rows)[k] == m[k]) || exists i :: 0 <= i < |rows| && rows[i].rowKey == k && WithLive(m, rows)[k] == rows[i]
    ensures forall k :: k in m && (forall i :: 0 <= i < |rows| ==> rows[i].rowKey != k) ==>
              k in WithLive(m, rows) && WithLive(m, rows)[k] == m[k]
  {
    if rows != [] {
      var front := rows[..|rows| - 1];
      assert forall i :: 0 <= i < |front| ==> front[i] == rows[i];
      OwnedWithLive(m, front);
    }
  }

  // ----- the log's rows

  /** An op as the generator holds it: an append's rows are the very rows the state files. */
  datatype LoggedOp = AppendRows(rows: seq<Row>) | Fixed(op: Op)

  ghost function LoggedCells(ops: seq<LoggedOp>): set<Cells> {
    set i, j | 0 <= i < |ops| && ops[i].AppendRows? && 0 <= j < |ops[i].rows| :: ops[i].rows[j].cells
  }

  ghost predicate OpReads(op: LoggedOp, out: Op)
    reads if op.AppendRows? then CellsOfRows(op.rows) else {}
  {
    match op
    case AppendRows(rows) => out.AppendOp? && RowsRead(rows, out.rows)
    case Fixed(o) => out == o && !o.AppendOp?
  }

  /** The log held in `ops` reads as `out` now. */
  ghost predicate ReadsAs(ops: seq<LoggedOp>, out: seq<Op>)
    reads LoggedCells(ops)
  {
    |ops| == |out| && forall i :: 0 <= i < |ops| ==> OpReads(ops[i], out[i])
  }

  /** A logged row that is live is the row the state files under its key. */
  ghost predicate Shares(ops: seq<LoggedOp>, rows: map<string, Row>, keys: set<string>) {
    forall i, j :: 0 <= i < |ops| && ops[i].AppendRows? && 0 <= j < |ops[i].rows| ==>
      var row := ops[i].rows[j];
      && row.cells.key == row.rowKey && row.rowKey in keys
      && (row.rowKey in rows ==> rows[row.rowKey] == row)
  }

  lemma SharesLess(ops: seq<LoggedOp>, rows: map<string, Row>, fewer: map<string, Row>, keys: set<string>)
    requires Shares(ops, rows, keys) && forall k :: k in fewer ==> k in rows && fewer[k] == rows[k]
    ensures Shares(ops, fewer, keys)
  {
  }

  lemma SharesFixed(ops: seq<LoggedOp>, rows: map<string, Row>, keys: set<string>, op: Op)
    requires Shares(ops, rows, keys)
    ensures Shares(ops + [Fixed(op)], rows, keys)
  {
  }

  lemma SharesAppended(ops: seq<LoggedOp>, live: map<string, Row>, keys: set<string>, rows: seq<Row>)
    requires Shares(ops, live, keys) && Owned(live) && OwnRows(rows)
    requires forall i :: 0 <= i < |rows| ==> rows[i].rowKey !in keys
    requires forall i, j :: 0 <= i < j < |rows| ==> rows[i].rowKey != rows[j].rowKey
    ensures Shares(ops + [AppendRows(rows)], WithLive(live, rows), keys + set i | 0 <= i < |rows| :: rows[i].rowKey)
    ensures Owned(WithLive(live, rows))
  {
    OwnedWithLive(live, rows);
    var all, m := ops + [AppendRows(rows)], WithLive(live, rows);
    var more := set i | 0 <= i < |rows| :: rows[i].rowKey;
    forall i, j | 0 <= i < |all| && all[i].AppendRows? && 0 <= j < |all[i].rows|
      ensures all[i].rows[j].cells.key == all[i].rows[j].rowKey && all[i].rows[j].rowKey in keys + more
      ensures all[i].rows[j].rowKey in m ==> m[all[i].rows[j].rowKey] == all[i].rows[j]
    {
      var row := all[i].rows[j];
      if i < |ops| {
        assert ops[i] == all[i] && ops[i].rows[j] == row;
      } else {
        assert row == rows[j] && row.rowKey in more;
        FiledLast(live, rows, j);
      }
    }
  }

  lemma {:induction false} FiledLast(live: map<string, Row>, rows: seq<Row>, j: nat)
    requires j < |rows| && forall i, k :: 0 <= i < k < |rows| ==> rows[i].rowKey != rows[k].rowKey
    ensures rows[j].rowKey in WithLive(live, rows) && WithLive(live, rows)[rows[j].rowKey] == rows[j]
  {
    if j < |rows| - 1 {
      FiledLast(live, rows[..|rows| - 1], j);
    }
  }

  /** What the log's value maps hold now. */
  ghost function SnapOf(ops: seq<LoggedOp>): map<Cells, map<string, TypedVal>>
    reads LoggedCells(ops)
  {
    map c | c in LoggedCells(ops) :: c.vals
  }

  ghost predicate ReadsFrom(snap: map<Cells, map<string, TypedVal>>, ops: seq<LoggedOp>, out: seq<Op>) {
    && |ops| == |out|
    && (forall i :: 0 <= i < |ops| && ops[i].Fixed? ==> out[i] == ops[i].op && !out[i].AppendOp?)
    && (forall i :: 0 <= i < |ops| && ops[i].AppendRows? ==> out[i].AppendOp? && |out[i].rows| == |ops[i].rows|)
    && (forall i, j :: 0 <= i < |ops| && ops[i].AppendRows? && 0 <= j < |ops[i].rows| ==>
          ops[i].rows[j].cells in snap && out[i].rows[j] == GenRow(ops[i].rows[j].rowKey, snap[ops[i].rows[j].cells]))
  }

  lemma SnapReads(ops: seq<LoggedOp>, out: seq<Op>)
    requires ReadsAs(ops, out)
    ensures ReadsFrom(SnapOf(ops), ops, out)
  {
    forall i | 0 <= i < |ops| ensures OpReads(ops[i], out[i]) {
    }
    forall i, j | 0 <= i < |ops| && ops[i].AppendRows? && 0 <= j < |ops[i].rows|
      ensures ops[i].rows[j].cells in SnapOf(ops) && out[i].rows[j] == Read(ops[i].rows[j])
    {
      assert ops[i].rows[j].cells in LoggedCells(ops);
    }
  }

  /** While no shared map changes, the log reads as before. */
  lemma ReadsKept(snap: map<Cells, map<string, TypedVal>>, ops: seq<LoggedOp>, out: seq<Op>)
    requires ReadsFrom(snap, ops, out)
    requires forall c :: c in LoggedCells(ops) && c in snap ==> c.vals == snap[c]
    ensures ReadsAs(ops, out)
  {
    forall i | 0 <= i < |ops| ensures OpReads(ops[i], out[i]) {
      if ops[i].AppendRows? {
        forall j | 0 <= j < |ops[i].rows| ensures out[i].rows[j] == Read(ops[i].rows[j]) {
          assert ops[i].rows[j].cells in LoggedCells(ops);
        }
      }
    }
  }

  /** Re-tagging the live rows in place writes through to the log. */
  lemma WroteThrough(
    snap: map<Cells, map<string, TypedVal>>, ops: seq<LoggedOp>, rows: map<string, Row>, keys: set<string>, out: seq<Op>,
    name: string, to: string)
    requires Owned(rows) && Shares(ops, rows, keys) && ReadsFrom(snap, ops, out)
    requires forall k :: k in rows && rows[k].cells in snap ==>
               Read(rows[k]) == RetagCell(GenRow(k, snap[rows[k].cells]), name, to)
    requires forall c :: c in LoggedCells(ops) && c in snap && c !in FootprintOf(rows) ==> c.vals == snap[c]
    ensures ReadsAs(ops, WriteThrough(out, rows.Keys, name, to))
  {
    var after := WriteThrough(out, rows.Keys, name, to);
    forall i | 0 <= i < |ops| ensures OpReads(ops[i], after[i]) {
      if ops[i].AppendRows? {
        forall j | 0 <= j < |ops[i].rows| ensures after[i].rows[j] == Read(ops[i].rows[j]) {
          var row := ops[i].rows[j];
          assert out[i].rows[j] == GenRow(row.rowKey, snap[row.cells]);
          assert row.cells in LoggedCells(ops);
          if row.rowKey in rows {
            assert rows[row.rowKey] == row;
          } else {
            assert row.cells !in FootprintOf(rows);
          }
        }
      }
    }
  }

  lemma ReadsUnique(ops: seq<LoggedOp>, a: seq<Op>, b: seq<Op>)
    requires ReadsAs(ops, a) && ReadsAs(ops, b)
    ensures a == b
  {
    forall i | 0 <= i < |ops| ensures a[i] == b[i] {
      assert OpReads(ops[i], a[i]) && OpReads(ops[i], b[i]);
      if ops[i].AppendRows? {
        assert a[i].rows == b[i].rows;
      }
    }
  }

  /** The log as it reads now. */
  method ReadLog(ops: seq<LoggedOp>) returns (out: seq<Op>)
    requires forall i :: 0 <= i < |ops| && ops[i].Fixed? ==> !ops[i].op.AppendOp?
    ensures ReadsAs(ops, out)
  {
    out := [];
    var i := 0;
    while i < |ops|
      invariant 0 <= i <= |ops| && |out| == i
      invariant forall k :: 0 <= k < i ==> OpReads(ops[k], out[k])
    {
      match ops[i] {
        case AppendRows(rows) =>
          var read := ReadRows(rows);
          out := out + [AppendOp(read)];
        case Fixed(op) => out := out + [op];
      }
      i := i + 1;
    }
  }

  method ReadRows(rows: seq<Row>) returns (out: seq<GenRow>)
    ensures RowsRead(rows, out)
  {
    out := [];
    var i := 0;
    while i < |rows|
      invariant 0 <= i <= |rows| && |out| == i
      invariant forall k :: 0 <= k < i ==> out[k] == Read(rows[k])
    {
      out := out + [Read(rows[i])];
      i := i + 1;
    }
  }

  class State {
    var schema: seq<GenField>
    var rows: map<string, Row>
    var binds: seq<string>
    var ordinal: nat
    var nextRowKey: nat
    var nextFieldId: nat

    /** `newState`: an id column, one value column, no rows. */
    constructor ()
      ensures schema == [GenField(1, "id", "long", true), GenField(2, "val", "string", false)]
      ensures rows == map[] && binds == [] && ordinal == 0 && nextRowKey == 1 && nextFieldId == 3
    {
      schema := [GenField(1, "id", "long", true), GenField(2, "val", "string", false)];
      rows := map[];
      binds := [];
      ordinal := 0;
      nextRowKey := 1;
      nextFieldId := 3;
    }

    /** `liveRowKeys`: gather the keys in map order, then sort them. */
    method LiveRowKeys() returns (keys: seq<string>)
      ensures Distinct(keys) && SortedBy(Self, keys)
      ensures forall k :: k in keys <==> k in rows
    {
      var gathered: seq<string> := [];
      var rest := rows.Keys;
      while rest != {}
        invariant rest <= rows.Keys
        invariant Distinct(gathered)
        invariant forall k :: k in gathered <==> k in rows && k !in rest
        decreases rest
      {
        var k := AnyOf(rest);
        gathered := gathered + [k];
        rest := rest - {k};
      }
      keys := SortStrings(gathered);
      StableSortCorrect(Self, gathered);
      SameBagMembers(keys, gathered);
      DistinctCounts(keys);
      DistinctCounts(gathered);
    }

    /** `applyAppend`: the rows are filed as they are, cells shared. */
    method ApplyAppend(added: seq<Row>)
      modifies `rows, `ordinal
      ensures rows == WithLive(old(rows), added) && ordinal == old(ordinal) + 1
    {
      var i := 0;
      while i < |added|
        invariant 0 <= i <= |added|
        invariant rows == WithLive(old(rows), added[..i]) && ordinal == old(ordinal)
      {
        assert added[..i + 1][..i] == added[..i];
        rows := rows[added[i].rowKey := added[i]];
        i := i + 1;
      }
      assert added[..i] == added;
      ordinal := ordinal + 1;
    }

    /** `applyDeleteKeys`. */
    method ApplyDeleteKeys(keys: seq<string>)
      modifies `rows, `ordinal
      ensures rows == old(rows) - KeySet(keys) && ordinal == old(ordinal) + 1
    {
      var i := 0;
      while i < |keys|
        invariant 0 <= i <= |keys|
        invariant rows == old(rows) - KeySet(keys[..i]) && ordinal == old(ordinal)
      {
        assert KeySet(keys[..i + 1]) == KeySet(keys[..i]) + {keys[i]};
        rows := rows - {keys[i]};
        i := i + 1;
      }
      assert keys[..i] == keys;
      ordinal := ordinal + 1;
    }

    /** `applyPromote`: widen the column and re-tag, in place, the cells of the live rows. */
    method ApplyPromote(fieldId: int, to: string)
      requires Owned(rows)
      modifies `schema, `ordinal, FootprintOf(rows)
      ensures schema == Retyped(old(schema), fieldId, to)
      ensures match FieldIndex(old(schema), fieldId) {
                case None => ordinal == old(ordinal) && forall k :: k in rows ==> Read(rows[k]) == old(Read(rows[k]))
                case Some(i) =>
                  && ordinal == old(ordinal) + 1
                  && forall k :: k in rows ==> Read(rows[k]) == RetagCell(old(Read(rows[k])), old(schema)[i].name, to)
              }
    {
      var f := FieldIndex(schema, fieldId);
      if f.None? {
        return;
      }
      var name := schema[f.value].name;
      schema := schema[f.value := schema[f.value].(ty := to)];
      var rest := rows.Keys;
      while rest != {}
        invariant rest <= rows.Keys
        invariant ordinal == old(ordinal) && schema == Retyped(old(schema), fieldId, to)
        invariant forall k :: k in rows ==>
                    Read(rows[k]) == if k in rest then old(Read(rows[k])) else RetagCell(old(Read(rows[k])), name, to)
        decreases rest
      {
        var k := AnyOf(rest);
        var r := rows[k];
        if name in r.cells.vals && !r.cells.vals[name].isNull {
          r.cells.vals := r.cells.vals[name := r.cells.vals[name].(tag := to)];
        }
        rest := rest - {k};
      }
      ordinal := ordinal + 1;
    }

    /** `hasPromotableColumn`. */
    method HasPromotableColumn() returns (b: bool)
      ensures b <==> Promotable(schema) > 0
    {
      var i := 0;
      while i < |schema|
        invariant 0 <= i <= |schema|
        invariant Promotable(schema) == Promotable(schema[i..])
      {
        if LegalTargets(schema[i].ty) != [] {
          return true;
        }
        assert schema[i..][1..] == schema[i + 1..];
        i := i + 1;
      }
      b := false;
    }
  }
}
