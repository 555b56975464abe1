/**
 The logical reading of an op-log: rows, not files. `Step` says what every entry does to the row
 bag, what it emits and how it fails; `Plain` keeps only the rows. The runner class in Interpret.dfy is
 proved to produce exactly this output from its files, positions and snapshots.
 */
module Replay {
  import opened Wrappers
  import opened Seqs
  import opened Values
  import opened Predicates
  import opened Emit

  datatype At = Ordinal(k: int) | Named(name: string)

  /** A promote-type change: the authored field id and the new type. */
  datatype Promotion = Promotion(fieldId: int, to: PType)

  datatype Entry =
    | Append(rows: seq<RowIn>)
    | Delete(kind: string, pred: Option<Pred>)
    | Evolve(changes: seq<Promotion>)
    | Rewrite
    | Observe(at: At, bind: Option<string>)
    | OtherOp(op: string)

  datatype Header = Header(version: nat, fields: Schema)

  datatype RunError = Unsupported(idx: nat, feature: string) | Failure(problem: Problem)

  /** One commit: the schema in force, the live rows under it, and what was emitted. */
  datatype Commit = Commit(schema: Schema, rows: seq<Record>, out: SnapshotOut)

  /**
   `live` are the rows a scan yields, `stored` the rows the current data files hold, deleted or
   not, both as read under the current schema.
   */
  datatype Logical = Logical(
    version: nat,
    labels: Labels,
    authored: map<int, string>,
    schema: Schema,
    live: seq<Record>,
    stored: seq<Record>,
    files: nat,
    deletes: nat,
    commits: seq<Commit>,
    binds: map<string, nat>,
    observations: seq<Observation>)

  type StepResult = Result<Logical, RunError>

  function Start(h: Header): StepResult {
    var schema := BuildSchema(h.fields);
    if !DistinctNames(schema) then Err(Failure(DuplicateColumn))
    else Ok(Logical(h.version, AuthoredLabels(h.fields), AuthoredNames(h.fields), schema, [], [], 0, 0, [], map[], []))
  }

  function TestOf(m: Matcher): Record -> bool {
    r => Matches(m, r)
  }

  function Survives(m: Matcher): Record -> bool {
    r => !Matches(m, r)
  }

  predicate AnyMatch(m: Matcher, rows: seq<Record>) {
    exists i :: 0 <= i < |rows| && Matches(m, rows[i])
  }

  function SummaryOf(total: nat, added: nat, deleted: nat, deleteFiles: nat): Summary {
    Summary(total, OmitZero(added), OmitZero(deleted), OmitZero(deleteFiles))
  }

  function ParentOf(ordinal: nat): Option<nat> {
    if ordinal == 0 then None else Some(ordinal - 1)
  }

  function DeleteFileOuts(n: nat): seq<DeleteFileOut> {
    if n == 0 then [] else [DeleteFileOut(1, "parquet")] + DeleteFileOuts(n - 1)
  }

  /** Commit the rows now in `l` with the given operation and counts. */
  function Committed(l: Logical, operation: string, added: nat, removed: nat, newDeletes: nat): Logical {
    var n := |l.commits|;
    var summary := SummaryOf(|l.stored|, added, removed, l.deletes);
    l.(commits := l.commits + [Commit(l.schema, l.live,
         SnapshotOut(n, ParentOf(n), operation, summary, DeleteFileOuts(newDeletes)))])
  }

  function StepAppend(l: Logical, rows: seq<RowIn>): StepResult {
    match ToRecords(l.schema, rows)
    case Err(p) => Err(Failure(p))
    case Ok(recs) =>
      if WriteProblem(l.schema, recs).Some? then Err(Failure(WriteProblem(l.schema, recs).value))
      else Ok(Committed(l.(live := l.live + recs, stored := l.stored + recs, files := l.files + 1),
                        "append", |recs|, 0, 0))
  }

  function StepDelete(l: Logical, idx: nat, kind: string, pred: Option<Pred>): StepResult {
    if kind == "equality" then Err(Unsupported(idx, "delete.merge-on-read.equality"))
    else if kind == "deletion-vector" || l.version >= 3 then
      Err(Unsupported(idx, "delete.merge-on-read.deletion-vector"))
    else if pred.None? then Err(Failure(MissingPredicate))
    else
      match MatcherOf(pred.value, l.schema)
      case Err(p) => Err(Failure(p))
      case Ok(m) =>
        if !AnyMatch(m, l.stored) then
          if l.commits == [] then Err(Failure(NoSnapshot)) else Ok(l)
        else if l.version < 2 then Err(Failure(CommitRejected))
        else Ok(Committed(l.(live := Filter(Survives(m), l.live), deletes := l.deletes + 1), "delete", 0, 0, 1))
  }

  function RetypeFrom(s: Schema, name: string, to: PType): Schema {
    if s == [] then []
    else if s[0].name == name then [s[0].(ty := to)] + s[1..]
    else [s[0]] + RetypeFrom(s[1..], name, to)
  }

  function ApplyPromotions(s: Schema, authored: map<int, string>, changes: seq<Promotion>): Result<Schema, Problem>
    decreases changes
  {
    if changes == [] then Ok(s)
    else
      var c := changes[0];
      if c.fieldId !in authored then Err(UnknownFieldId(c.fieldId))
      else
        var name := authored[c.fieldId];
        if TypeOf(s, name).None? || !LegalPromotion(TypeOf(s, name).value, c.to) then Err(IllegalPromotion(name))
        else ApplyPromotions(RetypeFrom(s, name, c.to), authored, changes[1..])
  }

  function StepEvolve(l: Logical, changes: seq<Promotion>): StepResult {
    match ApplyPromotions(l.schema, l.authored, changes)
    case Err(p) => Err(Failure(p))
    case Ok(s) =>
      Ok(l.(schema := s, labels := PositionalLabels(s),
            live := Map(Project(s), l.live), stored := Map(Project(s), l.stored)))
  }

  function StepRewrite(l: Logical): StepResult {
    if l.files <= 1 then Ok(l)
    else Ok(Committed(l.(stored := l.live, files := 1), "replace", |l.live|, |l.stored|, 0))
  }

  /** The commit an observe reads; None is latest. */
  function ObserveSource(l: Logical, at: At): Result<Option<nat>, Problem> {
    match at
    case Ordinal(k) => if 0 <= k < |l.commits| then Ok(Some(k)) else Err(UnknownOrdinal(k))
    case Named(n) =>
      if n == "latest" then Ok(None)
      else if n in l.binds then Ok(Some(l.binds[n]))
      else Err(UnknownBind(n))
  }

  function SourceSchema(l: Logical, source: Option<nat>): Schema {
    if source.Some? && source.value < |l.commits| then l.commits[source.value].schema else l.schema
  }

  function SourceRows(l: Logical, source: Option<nat>): seq<Record> {
    if source.Some? && source.value < |l.commits| then l.commits[source.value].rows else l.live
  }

  function AtEcho(at: At, bind: Option<string>): AtOut {
    if bind.Some? then AtName(bind.value)
    else match at
      case Ordinal(k) => AtOrdinal(k)
      case Named(n) => AtName(n)
  }

  function StepObserve(l: Logical, at: At, bind: Option<string>): StepResult {
    match ObserveSource(l, at)
    case Err(p) => Err(Failure(p))
    case Ok(source) =>
      var schema := SourceSchema(l, source);
      match SchemaFields(schema, l.labels)
      case Err(p) => Err(Failure(p))
      case Ok(fields) =>
        var obs := Observation(AtEcho(at, bind), bind, fields, Map(Decoder(schema, l.labels), SourceRows(l, source)));
        Ok(l.(observations := l.observations + [obs],
              binds := if bind.Some? && l.commits != [] then l.binds[bind.value := |l.commits| - 1] else l.binds))
  }

  function OtherFeature(op: string): string {
    if op == "evolve-spec" then "evolve-spec" else "op." + op
  }

  function Step(l: Logical, idx: nat, e: Entry): StepResult {
    match e
    case Append(rows) => StepAppend(l, rows)
    case Delete(kind, pred) => StepDelete(l, idx, kind, pred)
    case Evolve(changes) => StepEvolve(l, changes)
    case Rewrite => StepRewrite(l)
    case Observe(at, bind) => StepObserve(l, at, bind)
    case OtherOp(op) => Err(Unsupported(idx, OtherFeature(op)))
  }

  /** The state after the entries, or the error of the first that fails. */
  function Run(h: Header, entries: seq<Entry>): StepResult {
    if entries == [] then Start(h)
    else
      var before :- Run(h, entries[..|entries| - 1]);
      Step(before, |entries| - 1, entries[|entries| - 1])
  }

  /** Carry on from a state whose next entry has index `idx`. */
  function Resume(l: Logical, idx: nat, entries: seq<Entry>): StepResult
    decreases entries
  {
    if entries == [] then Ok(l)
    else
      var next :- Step(l, idx, entries[0]);
      Resume(next, idx + 1, entries[1..])
  }

  /** Same point, same schema, same rows in any order. */
  predicate SameObservation(a: Observation, b: Observation) {
    a.at == b.at && a.bind == b.bind && a.icebergSchema == b.icebergSchema && SameBag(a.decodedRows, b.decodedRows)
  }

  predicate SameObservations(a: seq<Observation>, b: seq<Observation>) {
    |a| == |b| && forall i :: 0 <= i < |a| ==> SameObservation(a[i], b[i])
  }

  // ----- the plain replay: only the schema and the rows, no files, commits or observations

  datatype PlainState = PlainState(schema: Schema, labels: Labels, rows: seq<Record>)

  function PlainStep(p: PlainState, authored: map<int, string>, e: Entry): PlainState {
    match e
    case Append(rows) =>
      if ToRecords(p.schema, rows).Ok? then p.(rows := p.rows + ToRecords(p.schema, rows).value) else p
    case Delete(_, pred) =>
      if pred.Some? && MatcherOf(pred.value, p.schema).Ok?
      then p.(rows := Filter(Survives(MatcherOf(pred.value, p.schema).value), p.rows))
      else p
    case Evolve(changes) =>
      if ApplyPromotions(p.schema, authored, changes).Ok?
      then PlainState(ApplyPromotions(p.schema, authored, changes).value,
                      PositionalLabels(ApplyPromotions(p.schema, authored, changes).value),
                      Map(Project(ApplyPromotions(p.schema, authored, changes).value), p.rows))
      else p
    case _ => p
  }

  function Plain(h: Header, entries: seq<Entry>): PlainState {
    if entries == [] then PlainState(BuildSchema(h.fields), AuthoredLabels(h.fields), [])
    else PlainStep(Plain(h, entries[..|entries| - 1]), AuthoredNames(h.fields), entries[|entries| - 1])
  }
}
