/**
 Field ids after relabelling. Both runners turn the id a promotion names into a column: Go inverts the
 labels in force (`authoredName`), which a schema change makes positional, Java keeps the header's ids.
 */
module GoNames {
  import opened Wrappers
  import opened Values
  import opened Emit
  import opened Replay
  import opened ReplayLaws
  import opened BindLaws

  /** `authoredName`: a column whose label is the id, whichever the map yields. */
  predicate GoResolves(labels: Labels, id: int, name: string) {
    name in labels && labels[name] == id
  }

  predicate JavaResolves(authored: map<int, string>, id: int, name: string) {
    id in authored && authored[id] == name
  }

  /** Both runners resolve every id to the same columns. */
  ghost predicate ResolveAlike(labels: Labels, authored: map<int, string>) {
    forall id, n :: GoResolves(labels, id, n) <==> JavaResolves(authored, id, n)
  }

  // ----- which column an id names

  function ColumnName(fields: Schema, c: nat): string
    requires c <= |fields|
  {
    if c == 0 then ROW_KEY else fields[c - 1].name
  }

  lemma {:induction false} AuthoredNamesFrom(fields: Schema, id: int, n: string)
    requires JavaResolves(AuthoredNames(fields), id, n)
    ensures exists c :: 0 <= c <= |fields| && ColumnId(fields, c) == id && ColumnName(fields, c) == n
  {
    if fields == [] {
      assert ColumnId(fields, 0) == id && ColumnName(fields, 0) == n;
    } else if fields[|fields| - 1].id == id {
      assert ColumnId(fields, |fields|) == id && ColumnName(fields, |fields|) == n;
    } else {
      var front := fields[..|fields| - 1];
      AuthoredNamesFrom(front, id, n);
      var c :| 0 <= c <= |front| && ColumnId(front, c) == id && ColumnName(front, c) == n;
      assert ColumnId(fields, c) == id && ColumnName(fields, c) == n;
    }
  }

  lemma UsableFront(fields: Schema)
    requires fields != [] && UsableIds(fields)
    ensures UsableIds(fields[..|fields| - 1])
  {
    var front := fields[..|fields| - 1];
    forall c, d | 0 <= c < d <= |front| ensures ColumnId(front, c) != ColumnId(front, d) {
      assert ColumnId(front, c) == ColumnId(fields, c) && ColumnId(front, d) == ColumnId(fields, d);
    }
  }

  lemma {:induction false} AuthoredNamesAt(fields: Schema, c: nat)
    requires UsableIds(fields) && c <= |fields|
    ensures JavaResolves(AuthoredNames(fields), ColumnId(fields, c), ColumnName(fields, c))
  {
    if c < |fields| {
      assert ColumnId(fields, c) != ColumnId(fields, |fields|);
      UsableFront(fields);
      AuthoredNamesAt(fields[..|fields| - 1], c);
    }
  }

  lemma PositionsUsable(fields: Schema)
    requires IdsArePositions(fields)
    ensures UsableIds(fields)
  {
    forall c | 0 <= c <= |fields| ensures ColumnId(fields, c) == c {
    }
  }

  /** A labelling of the built schema's columns, and the label each has. */
  ghost predicate LabelsColumns(labels: Labels, fields: Schema, ids: int -> int) {
    && NamesColumns(labels, BuildSchema(fields))
    && forall c :: 0 <= c <= |fields| ==> GoResolves(labels, ids(c), ColumnName(fields, c))
  }

  /** The position a column's name stands at. */
  lemma ColumnNamed(fields: Schema, n: string) returns (c: nat)
    requires HasColumn(BuildSchema(fields), n)
    ensures c <= |fields| && ColumnName(fields, c) == n
  {
    var all := BuildSchema(fields);
    c :| 0 <= c < |all| && all[c].name == n;
  }

  lemma NamesApart(fields: Schema, c: nat, d: nat)
    requires DistinctNames(BuildSchema(fields)) && c < d <= |fields|
    ensures ColumnName(fields, c) != ColumnName(fields, d)
  {
    var all := BuildSchema(fields);
    assert all[c].name != all[d].name;
  }

  function HeaderIds(fields: Schema): int -> int {
    c => if 0 <= c <= |fields| then ColumnId(fields, c) else 0
  }

  function Positions(): int -> int {
    c => c
  }

  lemma AuthoredColumns(fields: Schema)
    requires DistinctNames(BuildSchema(fields))
    ensures LabelsColumns(AuthoredLabels(fields), fields, HeaderIds(fields))
  {
    hide AuthoredLabels, DistinctNames, NamesColumns;
    AuthoredLabelsKeys(fields);
    forall c | 0 <= c <= |fields| ensures GoResolves(AuthoredLabels(fields), ColumnId(fields, c), ColumnName(fields, c)) {
      AuthoredLabelOf(fields, c);
    }
  }

  lemma PositionalColumns(fields: Schema)
    requires DistinctNames(BuildSchema(fields))
    ensures LabelsColumns(PositionalLabels(BuildSchema(fields)), fields, Positions())
  {
    hide PositionalLabels, DistinctNames, NamesColumns, BuildSchema;
    PositionalLabelsKeys(BuildSchema(fields));
    RowKeyLabels(fields);
    forall c | 0 <= c <= |fields| ensures GoResolves(PositionalLabels(BuildSchema(fields)), c, ColumnName(fields, c)) {
      if c > 0 {
        PositionOfUserColumn(fields, c - 1);
      }
    }
  }

  /** Labels resolve as the header does exactly when they are the header's ids and those are apart. */
  lemma LabelsResolve(labels: Labels, fields: Schema, ids: int -> int)
    requires DistinctNames(BuildSchema(fields)) && LabelsColumns(labels, fields, ids)
    ensures ResolveAlike(labels, AuthoredNames(fields)) <==>
            UsableIds(fields) && forall c :: 0 <= c <= |fields| ==> ids(c) == ColumnId(fields, c)
  {
    hide DistinctNames, AuthoredNames, BuildSchema, NamesColumns, LabelsColumns, GoResolves, JavaResolves, ColumnId;
    if ResolveAlike(labels, AuthoredNames(fields)) {
      forall c | 0 <= c <= |fields| ensures ids(c) == ColumnId(fields, c) {
        OwnId(labels, fields, ids, c);
      }
      forall c, d | 0 <= c < d <= |fields| ensures ColumnId(fields, c) != ColumnId(fields, d) {
        IdsApart(labels, fields, ids, c, d);
      }
    }
    if UsableIds(fields) && forall c :: 0 <= c <= |fields| ==> ids(c) == ColumnId(fields, c) {
      forall id, n ensures GoResolves(labels, id, n) <==> JavaResolves(AuthoredNames(fields), id, n) {
        SameColumn(labels, fields, ids, id, n);
      }
    }
  }

  lemma OwnId(labels: Labels, fields: Schema, ids: int -> int, c: nat)
    requires DistinctNames(BuildSchema(fields)) && LabelsColumns(labels, fields, ids) && c <= |fields|
    requires ResolveAlike(labels, AuthoredNames(fields))
    ensures ids(c) == ColumnId(fields, c)
  {
    hide DistinctNames, AuthoredNames, BuildSchema, NamesColumns;
    var n := ColumnName(fields, c);
    assert JavaResolves(AuthoredNames(fields), ids(c), n);
    AuthoredNamesFrom(fields, ids(c), n);
    var d :| 0 <= d <= |fields| && ColumnId(fields, d) == ids(c) && ColumnName(fields, d) == n;
    if c < d {
      NamesApart(fields, c, d);
    } else if d < c {
      NamesApart(fields, d, c);
    }
  }

  lemma IdsApart(labels: Labels, fields: Schema, ids: int -> int, c: nat, d: nat)
    requires DistinctNames(BuildSchema(fields)) && LabelsColumns(labels, fields, ids) && c < d <= |fields|
    requires ResolveAlike(labels, AuthoredNames(fields))
    requires ids(c) == ColumnId(fields, c) && ids(d) == ColumnId(fields, d)
    ensures ColumnId(fields, c) != ColumnId(fields, d)
  {
    hide DistinctNames, AuthoredNames, BuildSchema, NamesColumns, ColumnId;
    NamesApart(fields, c, d);
    assert JavaResolves(AuthoredNames(fields), ids(c), ColumnName(fields, c));
    assert JavaResolves(AuthoredNames(fields), ids(d), ColumnName(fields, d));
  }

  lemma SameColumn(labels: Labels, fields: Schema, ids: int -> int, id: int, n: string)
    requires LabelsColumns(labels, fields, ids) && UsableIds(fields)
    requires forall c :: 0 <= c <= |fields| ==> ids(c) == ColumnId(fields, c)
    ensures GoResolves(labels, id, n) <==> JavaResolves(AuthoredNames(fields), id, n)
  {
    hide AuthoredNames, BuildSchema, UsableIds;
    if GoResolves(labels, id, n) {
      var c := ColumnNamed(fields, n);
      AuthoredNamesAt(fields, c);
    }
    if JavaResolves(AuthoredNames(fields), id, n) {
      AuthoredNamesFrom(fields, id, n);
      var c :| 0 <= c <= |fields| && ColumnId(fields, c) == id && ColumnName(fields, c) == n;
      assert GoResolves(labels, ids(c), ColumnName(fields, c));
    }
  }

  /**
   In any reached state the two runners resolve every id alike exactly when the header's ids are apart
   and no schema change has run, or the header numbers its columns 1, 2, 3, ...
   */
  lemma NamesResolveAlike(h: Header, entries: seq<Entry>)
    requires Run(h, entries).Ok?
    ensures var l := Run(h, entries).value;
            ResolveAlike(l.labels, l.authored) <==>
            if NoEvolve(entries) then UsableIds(h.fields) else IdsArePositions(h.fields)
  {
    hide Run, NoEvolve, UsableIds, ResolveAlike, DistinctNames, LabelsColumns, AuthoredNames, PositionalLabels, BuildSchema;
    LabelsOfRun(h, entries);
    RunIsPlain(h, entries);
    if NoEvolve(entries) {
      AuthoredColumns(h.fields);
      LabelsResolve(AuthoredLabels(h.fields), h.fields, HeaderIds(h.fields));
    } else {
      PositionalColumns(h.fields);
      LabelsResolve(PositionalLabels(BuildSchema(h.fields)), h.fields, Positions());
      if IdsArePositions(h.fields) {
        PositionsUsable(h.fields);
      }
      HeaderPositions(h.fields);
    }
  }

  lemma HeaderPositions(fields: Schema)
    ensures IdsArePositions(fields) <==> forall c :: 0 <= c <= |fields| ==> Positions()(c) == ColumnId(fields, c)
  {
    if forall c :: 0 <= c <= |fields| ==> Positions()(c) == ColumnId(fields, c) {
      forall i | 0 <= i < |fields| ensures fields[i].id == i + 1 {
        assert Positions()(i + 1) == ColumnId(fields, i + 1);
      }
    }
  }

  // ----- what a schema change gives

  /** `doEvolveSchema`: a schema Go can give for these changes under the labels in force. */
  ghost predicate GoGives(s: Schema, labels: Labels, changes: seq<Promotion>, t: Schema)
    decreases changes
  {
    if changes == [] then t == s
    else
      exists n :: GoResolves(labels, changes[0].fieldId, n) && Promotable(s, n, changes[0].to)
                  && GoGives(RetypeFrom(s, n, changes[0].to), labels, changes[1..], t)
  }

  predicate Promotable(s: Schema, n: string, to: PType) {
    TypeOf(s, n).Some? && LegalPromotion(TypeOf(s, n).value, to)
  }

  /** No wider type exists. */
  predicate Widest(t: PType) {
    t.TBool? || t.TLong? || t.TDouble? || t.TString?
  }

  /** A promotion of one column does what the same promotion of the other does. */
  predicate MovesAlike(s: Schema, m: string, n: string) {
    m == n || (TypeOf(s, m).Some? && TypeOf(s, m) == TypeOf(s, n) && Widest(TypeOf(s, m).value))
  }

  /** Every id names columns that promotions move alike. */
  ghost predicate PromotesAlike(s: Schema, labels: Labels, authored: map<int, string>) {
    && (forall id, n :: GoResolves(labels, id, n) ==> id in authored && MovesAlike(s, authored[id], n))
    && (forall id :: id in authored ==> exists n :: GoResolves(labels, id, n))
  }

  /** Every name an id can stand for is a column. */
  ghost predicate NamesKnown(s: Schema, labels: Labels, authored: map<int, string>) {
    && (forall n :: n in labels ==> TypeOf(s, n).Some?)
    && (forall id :: id in authored ==> TypeOf(s, authored[id]).Some?)
  }

  ghost predicate GivesAlike(s: Schema, labels: Labels, authored: map<int, string>, changes: seq<Promotion>, t: Schema) {
    GoGives(s, labels, changes, t) <==> ApplyPromotions(s, authored, changes) == Ok(t)
  }

  lemma {:induction false} RetypedType(s: Schema, n: string, to: PType, x: string)
    requires TypeOf(s, n).Some?
    ensures TypeOf(RetypeFrom(s, n, to), x) == if x == n then Some(to) else TypeOf(s, x)
  {
    if s[0].name != n {
      RetypedType(s[1..], n, to, x);
    }
  }

  lemma {:induction false} RetypedSame(s: Schema, n: string)
    requires TypeOf(s, n).Some?
    ensures RetypeFrom(s, n, TypeOf(s, n).value) == s
  {
    if s[0].name != n {
      RetypedSame(s[1..], n);
    }
  }

  lemma MoveAlike(s: Schema, m: string, n: string, to: PType)
    requires MovesAlike(s, m, n) && TypeOf(s, m).Some? && TypeOf(s, n).Some?
    ensures Promotable(s, m, to) <==> Promotable(s, n, to)
    ensures Promotable(s, m, to) ==> RetypeFrom(s, m, to) == RetypeFrom(s, n, to)
  {
    if m != n && Promotable(s, m, to) {
      RetypedSame(s, m);
      RetypedSame(s, n);
    }
  }

  lemma RetypedKnown(s: Schema, labels: Labels, authored: map<int, string>, n: string, to: PType)
    requires NamesKnown(s, labels, authored) && PromotesAlike(s, labels, authored) && Promotable(s, n, to)
    ensures NamesKnown(RetypeFrom(s, n, to), labels, authored) && PromotesAlike(RetypeFrom(s, n, to), labels, authored)
  {
    hide TypeOf, RetypeFrom;
    var t := RetypeFrom(s, n, to);
    forall x ensures TypeOf(t, x) == if x == n then Some(to) else TypeOf(s, x) {
      RetypedType(s, n, to, x);
    }
    forall id, x | GoResolves(labels, id, x) ensures id in authored && MovesAlike(t, authored[id], x) {
      assert MovesAlike(s, authored[id], x);
    }
  }

  /** Where ids move columns alike, every schema change gives the same schema or fails in both. */
  lemma {:induction false} ChangesAlike(s: Schema, labels: Labels, authored: map<int, string>, changes: seq<Promotion>, t: Schema)
    requires NamesKnown(s, labels, authored) && PromotesAlike(s, labels, authored)
    ensures GivesAlike(s, labels, authored, changes, t)
    decreases changes
  {
    if changes != [] {
      var c := changes[0];
      hide MovesAlike, TypeOf, RetypeFrom, LegalPromotion;
      forall n | GoResolves(labels, c.fieldId, n)
        ensures Promotable(s, n, c.to) <==> Promotable(s, authored[c.fieldId], c.to)
        ensures Promotable(s, n, c.to) ==> RetypeFrom(s, n, c.to) == RetypeFrom(s, authored[c.fieldId], c.to)
      {
        MoveAlike(s, authored[c.fieldId], n, c.to);
      }
      if c.fieldId in authored && Promotable(s, authored[c.fieldId], c.to) {
        var next := RetypeFrom(s, authored[c.fieldId], c.to);
        RetypedKnown(s, labels, authored, authored[c.fieldId], c.to);
        ChangesAlike(next, labels, authored, changes[1..], t);
      }
    }
  }

  lemma GoGivesOne(s: Schema, labels: Labels, id: int, to: PType, t: Schema)
    ensures GoGives(s, labels, [Promotion(id, to)], t) <==>
            exists n :: GoResolves(labels, id, n) && Promotable(s, n, to) && t == RetypeFrom(s, n, to)
  {
    var changes := [Promotion(id, to)];
    assert changes[0] == Promotion(id, to) && changes[1..] == [];
    if GoGives(s, labels, changes, t) {
      var n :| GoResolves(labels, id, n) && Promotable(s, n, to) && GoGives(RetypeFrom(s, n, to), labels, changes[1..], t);
      assert GoGives(RetypeFrom(s, n, to), labels, [], t);
    }
    if n :| GoResolves(labels, id, n) && Promotable(s, n, to) && t == RetypeFrom(s, n, to) {
      assert GoGives(RetypeFrom(s, n, to), labels, changes[1..], t);
    }
  }

  lemma JavaGivesOne(s: Schema, authored: map<int, string>, id: int, to: PType, t: Schema)
    ensures ApplyPromotions(s, authored, [Promotion(id, to)]) == Ok(t) <==>
            id in authored && Promotable(s, authored[id], to) && t == RetypeFrom(s, authored[id], to)
  {
    var changes := [Promotion(id, to)];
    assert changes[1..] == [];
    if id in authored {
      assert ApplyPromotions(RetypeFrom(s, authored[id], to), authored, []) == Ok(RetypeFrom(s, authored[id], to));
    }
  }

  function Wider(t: PType): PType {
    match t
    case TInt => TLong
    case TFloat => TDouble
    case TDecimal(p, s) => TDecimal(p + 1, s)
    case _ => t
  }

  /** Single changes already tell columns apart that promotions move differently. */
  lemma GoIdMoves(s: Schema, labels: Labels, authored: map<int, string>, id: int, n: string)
    requires NamesKnown(s, labels, authored) && GoResolves(labels, id, n)
    requires forall to, t :: GivesAlike(s, labels, authored, [Promotion(id, to)], t)
    ensures id in authored && MovesAlike(s, authored[id], n)
  {
    var ty := TypeOf(s, n).value;
    hide GoGives, ApplyPromotions, TypeOf, RetypeFrom;
    var u, v := RetypeFrom(s, n, ty), RetypeFrom(s, n, Wider(ty));
    assert GivesAlike(s, labels, authored, [Promotion(id, ty)], u);
    assert GivesAlike(s, labels, authored, [Promotion(id, Wider(ty))], v);
    GoGivesOne(s, labels, id, ty, u);
    GoGivesOne(s, labels, id, Wider(ty), v);
    JavaGivesOne(s, authored, id, ty, u);
    JavaGivesOne(s, authored, id, Wider(ty), v);
    var m := authored[id];
    RetypedSame(s, n);
    RetypedType(s, m, ty, m);
    RetypedType(s, m, Wider(ty), n);
    RetypedType(s, n, Wider(ty), n);
  }

  lemma JavaIdMoves(s: Schema, labels: Labels, authored: map<int, string>, id: int)
    requires NamesKnown(s, labels, authored) && id in authored
    requires forall to, t :: GivesAlike(s, labels, authored, [Promotion(id, to)], t)
    ensures exists n :: GoResolves(labels, id, n)
  {
    var ty := TypeOf(s, authored[id]).value;
    hide GoGives, ApplyPromotions, TypeOf, RetypeFrom;
    var u := RetypeFrom(s, authored[id], ty);
    assert GivesAlike(s, labels, authored, [Promotion(id, ty)], u);
    GoGivesOne(s, labels, id, ty, u);
    JavaGivesOne(s, authored, id, ty, u);
  }

  lemma RunNamesKnown(h: Header, entries: seq<Entry>)
    requires Run(h, entries).Ok?
    ensures var l := Run(h, entries).value; NamesKnown(l.schema, l.labels, l.authored)
  {
    hide Run, NoEvolve, DistinctNames, AuthoredNames, BuildSchema, Widens;
    var l := Run(h, entries).value;
    RunInvariant(h, entries);
    RunIsPlain(h, entries);
    SchemaOfRun(h, entries);
    SourceWidens(l, None);
    forall n | HasColumn(l.schema, n) ensures TypeOf(l.schema, n).Some? {
      var i :| 0 <= i < |l.schema| && l.schema[i].name == n;
      ColumnHasType(l.schema, i);
    }
    forall id | id in l.authored ensures TypeOf(l.schema, l.authored[id]).Some? {
      AuthoredIsColumn(h.fields, id);
      WidensColumns(BuildSchema(h.fields), l.schema, l.authored[id]);
    }
  }

  lemma AuthoredIsColumn(fields: Schema, id: int)
    requires id in AuthoredNames(fields)
    ensures HasColumn(BuildSchema(fields), AuthoredNames(fields)[id])
  {
    var n := AuthoredNames(fields)[id];
    AuthoredNamesFrom(fields, id, n);
    var c :| 0 <= c <= |fields| && ColumnId(fields, c) == id && ColumnName(fields, c) == n;
    assert BuildSchema(fields)[c].name == n;
  }

  /**
   From any reached state every schema change gives the same schema in Go as in Java, or fails in both,
   exactly when each id names columns that promotions move alike: the same column, or, for an id read
   differently, columns of one type that has no wider one.
   */
  lemma EvolveAlikeExactly(h: Header, entries: seq<Entry>)
    requires Run(h, entries).Ok?
    ensures var l := Run(h, entries).value;
            (forall changes, t :: GivesAlike(l.schema, l.labels, l.authored, changes, t)) <==>
            PromotesAlike(l.schema, l.labels, l.authored)
  {
    hide Run, GivesAlike, NamesKnown, MovesAlike, GoResolves;
    var l := Run(h, entries).value;
    RunNamesKnown(h, entries);
    if PromotesAlike(l.schema, l.labels, l.authored) {
      forall changes, t ensures GivesAlike(l.schema, l.labels, l.authored, changes, t) {
        ChangesAlike(l.schema, l.labels, l.authored, changes, t);
      }
    }
    if forall changes, t :: GivesAlike(l.schema, l.labels, l.authored, changes, t) {
      forall id, n | GoResolves(l.labels, id, n) ensures id in l.authored && MovesAlike(l.schema, l.authored[id], n) {
        GoIdMoves(l.schema, l.labels, l.authored, id, n);
      }
      forall id | id in l.authored ensures exists n :: GoResolves(l.labels, id, n) {
        JavaIdMoves(l.schema, l.labels, l.authored, id);
      }
    }
  }

  /** Ids that resolve alike move alike: so they do before any schema change when the header's are apart. */
  lemma ResolvedMoveAlike(s: Schema, labels: Labels, authored: map<int, string>)
    requires ResolveAlike(labels, authored)
    ensures PromotesAlike(s, labels, authored)
  {
    forall id | id in authored ensures exists n :: GoResolves(labels, id, n) {
      assert JavaResolves(authored, id, authored[id]);
    }
  }

  /** The header's condition, for every schema change of a run. */
  lemma EvolveAlikeByHeader(h: Header, entries: seq<Entry>, changes: seq<Promotion>, t: Schema)
    requires Run(h, entries).Ok?
    requires if NoEvolve(entries) then UsableIds(h.fields) else IdsArePositions(h.fields)
    ensures var l := Run(h, entries).value; GivesAlike(l.schema, l.labels, l.authored, changes, t)
  {
    hide Run, GivesAlike, PromotesAlike, ResolveAlike, NoEvolve, UsableIds, IdsArePositions;
    var l := Run(h, entries).value;
    NamesResolveAlike(h, entries);
    ResolvedMoveAlike(l.schema, l.labels, l.authored);
    EvolveAlikeExactly(h, entries);
  }
}
