/**
 The emitted document as JSON (`Emit.java`), read back member by member, and what comparing two of
 them says of the runs behind them. The document's `spec-id` is not part of this model: no judge
 reads it.
 */
module Documents {
  import opened Wrappers
  import opened Seqs
  import opened Values
  import opened Emit
  import opened Replay
  import opened Compare
  import I = Interpret

  // ----- writing

  function WholeJson(n: int): Json {
    JNum(Numeral(n, 0))
  }

  function NodeJson(n: ValueNode): Json {
    JObj(map["type" := JStr(n.ty), "value" := n.value])
  }

  function RowJson(): DecodedRow -> Json {
    (row: DecodedRow) => JObj(map k | k in row :: NodeJson(row[k]))
  }

  function FieldJson(): SchemaField -> Json {
    (f: SchemaField) => JObj(map["field-id" := WholeJson(f.fieldId), "name" := JStr(f.name), "type" := JStr(f.ty)])
  }

  function AtJson(at: AtOut): Json {
    match at
    case AtOrdinal(k) => WholeJson(k)
    case AtName(n) => JStr(n)
  }

  function ObservationJson(): Observation -> Json {
    (obs: Observation) =>
      var body := map[
        "at" := AtJson(obs.at),
        "iceberg-schema" := JArr(Map(FieldJson(), obs.icebergSchema)),
        "decoded-rows" := JArr(Map(RowJson(), obs.decodedRows))];
      JObj(if obs.bind.Some? then body["bind" := JStr(obs.bind.value)] else body)
  }

  /** A member that is left out when there is no value. */
  function WithCount(m: map<string, Json>, k: string, n: Option<nat>): map<string, Json> {
    if n.Some? then m[k := WholeJson(n.value)] else m
  }

  function SummaryJson(s: Summary): Json {
    var total := map["total-records" := WholeJson(s.totalRecords)];
    var added := WithCount(total, "added-records", s.addedRecords);
    var removed := WithCount(added, "deleted-records", s.deletedRecords);
    JObj(WithCount(removed, "total-delete-files", s.totalDeleteFiles))
  }

  function DeleteFileJson(): DeleteFileOut -> Json {
    (d: DeleteFileOut) => JObj(map["content" := WholeJson(d.content), "format" := JStr(d.format)])
  }

  /** A root snapshot keeps its parent, as null; an empty list of delete files is left out. */
  function SnapshotJson(): SnapshotOut -> Json {
    (s: SnapshotOut) =>
      var body := map[
        "ordinal" := WholeJson(s.ordinal),
        "parent" := if s.parent.Some? then WholeJson(s.parent.value) else JNull,
        "operation" := JStr(s.operation),
        "summary" := SummaryJson(s.summary)];
      JObj(if s.deleteFiles != [] then body["delete-files" := JArr(Map(DeleteFileJson(), s.deleteFiles))] else body)
  }

  /** An empty list of snapshots is left out, an empty list of observations is not. */
  function OutputJson(out: I.Output): map<string, Json> {
    var body := map["accept" := JBool(true), "observations" := JArr(Map(ObservationJson(), out.observations))];
    if out.snapshots != [] then body["snapshots" := JArr(Map(SnapshotJson(), out.snapshots))] else body
  }

  // ----- reading back

  function MembersAt(v: Json): map<string, Json> {
    if v.JObj? then v.members else map[]
  }

  function WordAt(v: Json, k: string): string {
    if k in MembersAt(v) && MembersAt(v)[k].JStr? then MembersAt(v)[k].s else ""
  }

  function WholeAt(v: Json, k: string): int {
    if k in MembersAt(v) && MembersAt(v)[k].JNum? then MembersAt(v)[k].x.unscaled else 0
  }

  function CountAt(v: Json, k: string): Option<nat> {
    if k in MembersAt(v) && MembersAt(v)[k].JNum? && WholeAt(v, k) >= 0 then Some(WholeAt(v, k)) else None
  }

  function ListAt(v: Json, k: string): seq<Json> {
    if k in MembersAt(v) && MembersAt(v)[k].JArr? then MembersAt(v)[k].items else []
  }

  function NatAt(v: Json, k: string): nat {
    if CountAt(v, k).Some? then CountAt(v, k).value else 0
  }

  function ReadNode(v: Json): ValueNode {
    ValueNode(WordAt(v, "type"), if "value" in MembersAt(v) then MembersAt(v)["value"] else JNull)
  }

  function ReadRow(): Json -> DecodedRow {
    (v: Json) => map k | k in MembersAt(v) :: ReadNode(MembersAt(v)[k])
  }

  function ReadField(): Json -> SchemaField {
    (v: Json) => SchemaField(WholeAt(v, "field-id"), WordAt(v, "name"), WordAt(v, "type"))
  }

  function ReadAt(v: Json): AtOut {
    if "at" in MembersAt(v) && MembersAt(v)["at"].JNum? then AtOrdinal(WholeAt(v, "at")) else AtName(WordAt(v, "at"))
  }

  function ReadBind(v: Json): Option<string> {
    if "bind" in MembersAt(v) then Some(WordAt(v, "bind")) else None
  }

  function ReadObservation(): Json -> Observation {
    (v: Json) =>
      Observation(ReadAt(v), ReadBind(v),
                  Map(ReadField(), ListAt(v, "iceberg-schema")), Map(ReadRow(), ListAt(v, "decoded-rows")))
  }

  function ReadSummary(v: Json): Summary {
    Summary(NatAt(v, "total-records"), CountAt(v, "added-records"), CountAt(v, "deleted-records"),
            CountAt(v, "total-delete-files"))
  }

  function ReadDeleteFile(): Json -> DeleteFileOut {
    (v: Json) => DeleteFileOut(NatAt(v, "content"), WordAt(v, "format"))
  }

  function ReadSnapshot(): Json -> SnapshotOut {
    (v: Json) =>
      var summary := if "summary" in MembersAt(v) then MembersAt(v)["summary"] else JNull;
      SnapshotOut(NatAt(v, "ordinal"), CountAt(v, "parent"), WordAt(v, "operation"), ReadSummary(summary),
                  Map(ReadDeleteFile(), ListAt(v, "delete-files")))
  }

  function ReadOutput(m: map<string, Json>): I.Output {
    I.Output(Map(ReadSnapshot(), ListAt(JObj(m), "snapshots")), Map(ReadObservation(), ListAt(JObj(m), "observations")))
  }

  // ----- nothing is lost on the way

  lemma MapBack<A, B>(write: A -> B, read: B -> A, s: seq<A>)
    requires forall i :: 0 <= i < |s| ==> read(write(s[i])) == s[i]
    ensures Map(read, Map(write, s)) == s
  {
  }

  lemma RowReads(row: DecodedRow)
    ensures ReadRow()(RowJson()(row)) == row
  {
  }

  lemma RowsRead(rows: seq<DecodedRow>)
    ensures Map(ReadRow(), Map(RowJson(), rows)) == rows
  {
    forall i | 0 <= i < |rows| ensures ReadRow()(RowJson()(rows[i])) == rows[i] {
      RowReads(rows[i]);
    }
    hide ReadRow, RowJson;
    MapBack(RowJson(), ReadRow(), rows);
  }

  lemma FieldsRead(fields: seq<SchemaField>)
    ensures Map(ReadField(), Map(FieldJson(), fields)) == fields
  {
    MapBack(FieldJson(), ReadField(), fields);
  }

  lemma ObservationMembers(obs: Observation)
    ensures ObservationJson()(obs).JObj?
    ensures var m := MembersAt(ObservationJson()(obs));
            && "at" in m && m["at"] == AtJson(obs.at)
            && "iceberg-schema" in m && m["iceberg-schema"] == JArr(Map(FieldJson(), obs.icebergSchema))
            && "decoded-rows" in m && m["decoded-rows"] == JArr(Map(RowJson(), obs.decodedRows))
            && ("bind" in m <==> obs.bind.Some?)
            && ("bind" in m ==> m["bind"] == JStr(obs.bind.value))
  {
    hide AtJson, FieldJson, RowJson, Map;
    assert |"at"| == 2 && |"bind"| == 4 && |"decoded-rows"| == 12 && |"iceberg-schema"| == 14;
  }

  lemma ObservationReads(obs: Observation)
    ensures ReadObservation()(ObservationJson()(obs)) == obs
  {
    hide ObservationJson, ReadRow, RowJson, ReadField, FieldJson, Map;
    ObservationMembers(obs);
    var v := ObservationJson()(obs);
    assert ReadAt(v) == obs.at && ReadBind(v) == obs.bind;
    hide ReadAt, ReadBind, WordAt, AtJson;
    assert ListAt(v, "iceberg-schema") == Map(FieldJson(), obs.icebergSchema);
    assert ListAt(v, "decoded-rows") == Map(RowJson(), obs.decodedRows);
    hide ListAt;
    RowsRead(obs.decodedRows);
    FieldsRead(obs.icebergSchema);
  }

  lemma SummaryReads(s: Summary)
    ensures ReadSummary(SummaryJson(s)) == s
  {
  }

  lemma SnapshotMembers(s: SnapshotOut)
    ensures var m := MembersAt(SnapshotJson()(s));
            && "ordinal" in m && m["ordinal"] == WholeJson(s.ordinal)
            && "parent" in m && m["parent"] == (if s.parent.Some? then WholeJson(s.parent.value) else JNull)
            && "operation" in m && m["operation"] == JStr(s.operation)
            && "summary" in m && m["summary"] == SummaryJson(s.summary)
            && ("delete-files" in m <==> s.deleteFiles != [])
            && ("delete-files" in m ==> m["delete-files"] == JArr(Map(DeleteFileJson(), s.deleteFiles)))
  {
    hide SummaryJson, DeleteFileJson, Map, WholeJson;
    assert |"parent"| == 6 && |"delete-files"| == 12 && |"operation"| == 9;
    assert "ordinal"[0] != "summary"[0];
  }

  lemma DeleteFilesRead(files: seq<DeleteFileOut>)
    ensures Map(ReadDeleteFile(), Map(DeleteFileJson(), files)) == files
  {
    MapBack(DeleteFileJson(), ReadDeleteFile(), files);
  }

  lemma SnapshotReads(s: SnapshotOut)
    ensures ReadSnapshot()(SnapshotJson()(s)) == s
  {
    SnapshotMembers(s);
    DeleteFilesRead(s.deleteFiles);
    SummaryReads(s.summary);
    hide SnapshotJson, SummaryJson, ReadSummary, ReadDeleteFile, DeleteFileJson;
  }

  /** The members read back, by name, give the output the document was written from. */
  lemma DocumentReads(out: I.Output)
    ensures ReadOutput(OutputJson(out)) == out
  {
    hide ReadObservation, ObservationJson, ReadSnapshot, SnapshotJson;
    forall i | 0 <= i < |out.observations|
      ensures ReadObservation()(ObservationJson()(out.observations[i])) == out.observations[i]
    {
      ObservationReads(out.observations[i]);
    }
    forall i | 0 <= i < |out.snapshots| ensures ReadSnapshot()(SnapshotJson()(out.snapshots[i])) == out.snapshots[i] {
      SnapshotReads(out.snapshots[i]);
    }
    MapBack(ObservationJson(), ReadObservation(), out.observations);
    MapBack(SnapshotJson(), ReadSnapshot(), out.snapshots);
  }

  /** No member beside those read back; the document always accepts. */
  lemma NothingElseWritten(out: I.Output)
    ensures OutputJson(out).Keys ==
            {"accept", "observations"} + if out.snapshots == [] then {} else {"snapshots"}
    ensures OutputJson(out)["accept"] == JBool(true)
  {
  }

  lemma NothingElseOfObservations(obs: Observation, f: SchemaField, n: ValueNode)
    ensures ObservationJson()(obs).JObj? &&
            ObservationJson()(obs).members.Keys ==
            {"at", "iceberg-schema", "decoded-rows"} + if obs.bind == None then {} else {"bind"}
    ensures FieldJson()(f).JObj? && FieldJson()(f).members.Keys == {"field-id", "name", "type"}
    ensures NodeJson(n).JObj? && NodeJson(n).members.Keys == {"type", "value"}
  {
  }

  lemma NothingElseOfSnapshots(s: SnapshotOut, d: DeleteFileOut)
    ensures SnapshotJson()(s).JObj? &&
            SnapshotJson()(s).members.Keys ==
            {"ordinal", "parent", "operation", "summary"} + if s.deleteFiles == [] then {} else {"delete-files"}
    ensures SummaryJson(s.summary).JObj? &&
            SummaryJson(s.summary).members.Keys <=
            {"total-records", "added-records", "deleted-records", "total-delete-files"}
    ensures DeleteFileJson()(d).JObj? && DeleteFileJson()(d).members.Keys == {"content", "format"}
  {
  }

  // ----- comparing two documents compares two runs

  /** No two different rows of an observation have the same row key cell. */
  predicate Keyed(rows: seq<DecodedRow>) {
    forall i, j :: 0 <= i < j < |rows| && CellAt(rows[i], "0") == CellAt(rows[j], "0") ==> rows[i] == rows[j]
  }

  function CellAt(row: DecodedRow, k: string): Option<ValueNode> {
    if k in row then Some(row[k]) else None
  }

  lemma SameNode(a: ValueNode, b: ValueNode)
    ensures NodeJson(a) == NodeJson(b) <==> a == b
    ensures NodeJson(a) != JNull
  {
    assert ReadNode(NodeJson(a)) == a && ReadNode(NodeJson(b)) == b;
  }

  lemma KeyedDecides(canon: Json -> string, rows: seq<DecodedRow>)
    requires Injective(canon) && Keyed(rows)
    ensures KeyDecides(canon, Map(RowJson(), rows))
  {
    var shown := Map(RowJson(), rows);
    forall i, j | 0 <= i < j < |shown| && RowKey(canon)(shown[i]) == RowKey(canon)(shown[j])
      ensures shown[i] == shown[j]
    {
      var a, b := Get(shown[i].members, "0"), Get(shown[j].members, "0");
      assert canon(a) == canon(b);
      assert a == b;
      if "0" in rows[i] && "0" in rows[j] {
        SameNode(rows[i]["0"], rows[j]["0"]);
      }
      assert rows[i] == rows[j];
    }
  }

  lemma ShownBags(a: seq<DecodedRow>, b: seq<DecodedRow>)
    ensures SameBag(Map(RowJson(), a), Map(RowJson(), b)) <==> SameBag(a, b)
  {
    if SameBag(a, b) {
      MapBag(RowJson(), a, b);
    }
    if SameBag(Map(RowJson(), a), Map(RowJson(), b)) {
      MapBag(ReadRow(), Map(RowJson(), a), Map(RowJson(), b));
      RowsRead(a);
      RowsRead(b);
    }
  }

  lemma SameFields(a: seq<SchemaField>, b: seq<SchemaField>)
    ensures JArr(Map(FieldJson(), a)) == JArr(Map(FieldJson(), b)) <==> a == b
  {
    hide FieldJson, ReadField;
    FieldsRead(a);
    FieldsRead(b);
  }

  lemma SameSnapshots(a: I.Output, b: I.Output)
    ensures Arr(Get(OutputJson(a), "snapshots")) == Arr(Get(OutputJson(b), "snapshots")) <==> a.snapshots == b.snapshots
  {
    hide ReadObservation, ObservationJson, ReadSnapshot, SnapshotJson;
    DocumentReads(a);
    DocumentReads(b);
    assert Arr(Get(OutputJson(a), "snapshots")) == ListAt(JObj(OutputJson(a)), "snapshots");
    assert Arr(Get(OutputJson(b), "snapshots")) == ListAt(JObj(OutputJson(b)), "snapshots");
  }

  /** The same columns and the same bag of rows; where it was read at and the name bound go unread. */
  predicate ShowsAlike(a: Observation, b: Observation) {
    a.icebergSchema == b.icebergSchema && SameBag(a.decodedRows, b.decodedRows)
  }

  lemma ObservationCompared(canon: Json -> string, a: Observation, b: Observation)
    requires Injective(canon) && Keyed(a.decodedRows)
    ensures ObservationsMatch(canon, ObservationJson()(a), ObservationJson()(b)) <==> ShowsAlike(a, b)
  {
    KeyedDecides(canon, a.decodedRows);
    ObservationMembers(a);
    ObservationMembers(b);
    hide Injective, Keyed, KeyDecides, RowsAgree, SameBag, RowJson, FieldJson, ObservationJson;
    assert ObservationJson()(a).JObj? && ObservationJson()(b).JObj?;
    RowsAgreeExactly(canon, Map(RowJson(), a.decodedRows), Map(RowJson(), b.decodedRows));
    ShownBags(a.decodedRows, b.decodedRows);
    SameFields(a.icebergSchema, b.icebergSchema);
  }

  /** The comparison of two documents is clean exactly when the runs emitted the same, up to row order. */
  lemma DocumentsCompared(canon: Json -> string, a: I.Output, b: I.Output)
    requires Injective(canon)
    requires forall i :: 0 <= i < |a.observations| ==> Keyed(a.observations[i].decodedRows)
    ensures SameOutput(canon, OutputJson(a), OutputJson(b)) <==>
            && a.snapshots == b.snapshots
            && |a.observations| == |b.observations|
            && forall i :: 0 <= i < |a.observations| ==> ShowsAlike(a.observations[i], b.observations[i])
  {
    hide Injective, Keyed, ObservationsMatch, ShowsAlike, ObservationJson, SnapshotJson;
    SameSnapshots(a, b);
    var x, y := Map(ObservationJson(), a.observations), Map(ObservationJson(), b.observations);
    assert Arr(Get(OutputJson(a), "observations")) == x && Arr(Get(OutputJson(b), "observations")) == y;
    assert Get(OutputJson(a), "accept") == Get(OutputJson(b), "accept");
    forall i | 0 <= i < |x| && |x| == |y|
      ensures ObservationsMatch(canon, x[i], y[i]) <==> ShowsAlike(a.observations[i], b.observations[i])
    {
      ObservationCompared(canon, a.observations[i], b.observations[i]);
    }
  }

  /**
   Two executions of one log, whatever order their scans gave, compare clean when no observation
   shows two different rows under one row key.
   */
  lemma ExecutionsCompareClean(canon: Json -> string, l: Logical, a: I.Output, b: I.Output)
    requires Injective(canon) && I.EmitsLike(a, l) && I.EmitsLike(b, l)
    requires forall i :: 0 <= i < |l.observations| ==> Keyed(l.observations[i].decodedRows)
    ensures SameOutput(canon, OutputJson(a), OutputJson(b))
  {
    hide Injective, OutputJson, SameOutput;
    forall i | 0 <= i < |a.observations| ensures Keyed(a.observations[i].decodedRows) {
      assert SameObservation(a.observations[i], l.observations[i]);
      KeyedBag(l.observations[i].decodedRows, a.observations[i].decodedRows);
    }
    forall i | 0 <= i < |a.observations| ensures ShowsAlike(a.observations[i], b.observations[i]) {
      assert SameObservation(a.observations[i], l.observations[i]) && SameObservation(b.observations[i], l.observations[i]);
    }
    assert a.snapshots == b.snapshots;
    DocumentsCompared(canon, a, b);
  }

  lemma KeyedBag(s: seq<DecodedRow>, t: seq<DecodedRow>)
    requires Keyed(s) && SameBag(s, t)
    ensures Keyed(t)
  {
    hide CellAt;
    forall i, j | 0 <= i < j < |t| && CellAt(t[i], "0") == CellAt(t[j], "0") ensures t[i] == t[j] {
      assert t[i] in multiset(s) && t[j] in multiset(s);
      var p :| 0 <= p < |s| && s[p] == t[i];
      var q :| 0 <= q < |s| && s[q] == t[j];
    }
  }
}
