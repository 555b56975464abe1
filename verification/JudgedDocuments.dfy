/**
 The three judges on the documents themselves: what they accept and reject, told by the members of
 the JSON they are given.
 */
module JudgedDocuments {
  import opened Wrappers
  import opened Seqs
  import opened Emit
  import opened Compare
  import opened ReadDiff
  import opened Metamorphic

  // ----- documents

  /** What an observation of an output document says. */
  datatype Said = Said(schema: Json, rows: seq<Json>)

  datatype Document = Document(accept: Option<bool>, snapshots: seq<Json>, observations: seq<Said>)

  /** The member is there with this value. */
  predicate HasMember(m: map<string, Json>, k: string, v: Json) {
    k in m && m[k] == v
  }

  predicate SaysObservation(o: Json, s: Said) {
    o.JObj? && HasMember(o.members, "iceberg-schema", s.schema) && HasMember(o.members, "decoded-rows", JArr(s.rows))
  }

  /** The JSON object is this document; a missing `accept` is a yes. */
  ghost predicate SaysDocument(m: map<string, Json>, d: Document) {
    && (if d.accept.Some? then HasMember(m, "accept", JBool(d.accept.value)) else "accept" !in m)
    && HasMember(m, "snapshots", JArr(d.snapshots))
    && "observations" in m && m["observations"].JArr?
    && |m["observations"].items| == |d.observations|
    && forall i :: 0 <= i < |d.observations| ==> SaysObservation(m["observations"].items[i], d.observations[i])
  }

  predicate Accepts(d: Document) {
    d.accept != Some(false)
  }

  // ----- the golden comparator

  /** Every row is an object with a member 0, and no two rows have the same. */
  predicate KeyedApart(rows: seq<Json>) {
    && (forall i :: 0 <= i < |rows| ==> rows[i].JObj? && "0" in rows[i].members)
    && forall i, j :: 0 <= i < j < |rows| ==> rows[i].members["0"] != rows[j].members["0"]
  }

  lemma KeyedApartDecides(canon: Json -> string, rows: seq<Json>)
    requires Injective(canon) && KeyedApart(rows)
    ensures KeyDecides(canon, rows)
  {
    hide RowKey;
    forall i, j | 0 <= i < j < |rows| ensures RowKey(canon)(rows[i]) != RowKey(canon)(rows[j]) {
      KeyIsCellZero(canon, rows[i]);
      KeyIsCellZero(canon, rows[j]);
      assert rows[i].members["0"] != rows[j].members["0"];
    }
  }

  lemma KeyIsCellZero(canon: Json -> string, row: Json)
    requires row.JObj? && "0" in row.members
    ensures RowKey(canon)(row) == canon(row.members["0"])
  {
  }

  /**
   With rows keyed apart the comparator reports nothing exactly when acceptance, snapshots in order and
   schemas are equal and the rows are, in whatever order.
   */
  lemma ComparedExactly(canon: Json -> string, got: map<string, Json>, want: map<string, Json>, g: Document, w: Document)
    requires Injective(canon) && SaysDocument(got, g) && SaysDocument(want, w)
    requires forall i :: 0 <= i < |g.observations| ==> KeyedApart(g.observations[i].rows)
    ensures SameOutput(canon, got, want) <==>
            && Accepts(g) == Accepts(w)
            && g.snapshots == w.snapshots
            && |g.observations| == |w.observations|
            && forall i :: 0 <= i < |g.observations| ==>
                 && g.observations[i].schema == w.observations[i].schema
                 && multiset(g.observations[i].rows) == multiset(w.observations[i].rows)
  {
    hide RowsAgree, KeyDecides, RowKey;
    var go, wo := got["observations"].items, want["observations"].items;
    forall i | 0 <= i < |go| && i < |wo|
      ensures ObservationsMatch(canon, go[i], wo[i]) <==>
              && g.observations[i].schema == w.observations[i].schema
              && multiset(g.observations[i].rows) == multiset(w.observations[i].rows)
    {
      KeyedApartDecides(canon, g.observations[i].rows);
      RowsAgreeExactly(canon, g.observations[i].rows, w.observations[i].rows);
      assert SaysObservation(go[i], g.observations[i]) && SaysObservation(wo[i], w.observations[i]);
    }
  }

  /** Two different rows with one member 0 are reported when they change places. */
  lemma SwapReported(canon: Json -> string, got: map<string, Json>, want: map<string, Json>, g: Document, w: Document, i: nat, x: Json, y: Json)
    requires SaysDocument(got, g) && SaysDocument(want, w)
    requires i < |g.observations| == |w.observations|
    requires g.observations[i].rows == [x, y] && w.observations[i].rows == [y, x]
    requires x != y && x.JObj? && y.JObj? && "0" in x.members && "0" in y.members && x.members["0"] == y.members["0"]
    ensures !SameOutput(canon, got, want)
  {
    hide RowsAgree, RowKey;
    KeyIsCellZero(canon, x);
    KeyIsCellZero(canon, y);
    SharedKeyOrderVisible(canon, x, y);
    var a, b := got["observations"].items[i], want["observations"].items[i];
    assert SaysObservation(a, g.observations[i]) && SaysObservation(b, w.observations[i]);
    assert !ObservationsMatch(canon, a, b);
  }

  // ----- columns

  /** A schema field that names its column and its type. */
  predicate SaysField(f: Json, column: (string, string)) {
    f.JObj? && HasMember(f.members, "name", JStr(column.0)) && HasMember(f.members, "type", JStr(column.1))
  }

  ghost predicate SaysColumns(schema: Json, columns: seq<(string, string)>) {
    && schema.JArr? && |schema.items| == |columns|
    && forall i :: 0 <= i < |columns| ==> SaysField(schema.items[i], columns[i])
  }

  /** The last column of this name has this type. */
  ghost predicate LastType(columns: seq<(string, string)>, n: string, t: string) {
    exists i :: 0 <= i < |columns| && columns[i] == (n, t) && forall j :: i < j < |columns| ==> columns[j].0 != n
  }

  lemma {:induction false} LastTypeMapped(fields: seq<Json>, columns: seq<(string, string)>, n: string, t: string)
    requires |fields| == |columns| && forall i :: 0 <= i < |columns| ==> SaysField(fields[i], columns[i])
    ensures n in SchemaMap(fields) && SchemaMap(fields)[n] == t <==> LastType(columns, n, t)
  {
    if fields != [] {
      var last := |fields| - 1;
      LastTypeMapped(fields[..last], columns[..last], n, t);
      LastTypeFront(columns, n, t);
    }
  }

  lemma LastTypeFront(columns: seq<(string, string)>, n: string, t: string)
    requires columns != []
    ensures var last := |columns| - 1;
            LastType(columns, n, t) <==> if columns[last].0 == n then columns[last].1 == t else LastType(columns[..last], n, t)
  {
    var last := |columns| - 1;
    var front := columns[..last];
    if LastType(columns, n, t) {
      var i :| 0 <= i < |columns| && columns[i] == (n, t) && forall j :: i < j < |columns| ==> columns[j].0 != n;
      if i < last {
        assert columns[last].0 != n;
        assert front[i] == columns[i] && forall j :: i < j < |front| ==> front[j] == columns[j];
      }
    }
    if columns[last].0 == n && columns[last].1 == t {
      assert columns[last] == (n, t);
    }
    if columns[last].0 != n && LastType(front, n, t) {
      var i :| 0 <= i < |front| && front[i] == (n, t) && forall j :: i < j < |front| ==> front[j].0 != n;
      assert columns[i] == (n, t);
      forall j | i < j < |columns| ensures columns[j].0 != n {
        assert j < last ==> columns[j] == front[j];
      }
    }
  }

  // ----- the read differ

  /** The first observation of a document is an object that says this. */
  predicate SaysFirst(m: map<string, Json>, s: Said) {
    "observations" in m && m["observations"].JArr? && m["observations"].items != [] && SaysObservation(m["observations"].items[0], s)
  }

  /**
   The read differ agrees exactly when every column of the golden's first observation has the type
   there that it has in the other, each by its last field, and the rows are equal in whatever order.
   */
  lemma ReadExactly(golden: map<string, Json>, got: map<string, Json>, g: Said, t: Said,
                    gold: seq<(string, string)>, read: seq<(string, string)>)
    requires SaysFirst(golden, g) && SaysFirst(got, t) && SaysColumns(g.schema, gold) && SaysColumns(t.schema, read)
    ensures ReadsAgree(golden, got) <==>
            && (forall n, ty :: LastType(gold, n, ty) ==> LastType(read, n, ty))
            && multiset(g.rows) == multiset(t.rows)
  {
    hide LastType;
    var a, b := SchemaMap(g.schema.items), SchemaMap(t.schema.items);
    forall n, ty ensures n in a && a[n] == ty <==> LastType(gold, n, ty) ensures n in b && b[n] == ty <==> LastType(read, n, ty) {
      LastTypeMapped(g.schema.items, gold, n, ty);
      LastTypeMapped(t.schema.items, read, n, ty);
    }
    hide SchemaMap;
    if forall n, ty :: LastType(gold, n, ty) ==> LastType(read, n, ty) {
      forall n | n in a ensures n in b && b[n] == a[n] {
        assert LastType(gold, n, a[n]);
      }
    }
    if SchemaContained(a, b) {
      forall n, ty | LastType(gold, n, ty) ensures LastType(read, n, ty) {
        assert n in a && a[n] == ty;
      }
    }
  }

  // ----- the metamorphic check

  /** No column of a predicted name, other than the row key's, has another type. */
  predicate ColumnsFit(columns: seq<(string, string)>, want: map<string, string>) {
    forall i :: 0 <= i < |columns| && columns[i].0 != "__rowkey" && columns[i].0 in want ==> want[columns[i].0] == columns[i].1
  }

  /** The type check reports nothing exactly when every shown column that is predicted, the row key aside, has its type. */
  lemma TypesCheckedExactly(fields: seq<Json>, columns: seq<(string, string)>, want: map<string, string>)
    requires SaysColumns(JArr(fields), columns)
    ensures TypesAsPredicted(fields, want) <==> ColumnsFit(columns, want)
  {
    forall i | 0 <= i < |fields|
      ensures TypeAsPredicted(fields[i], want) <==>
              (columns[i].0 != "__rowkey" && columns[i].0 in want ==> want[columns[i].0] == columns[i].1)
    {
      assert SaysField(fields[i], columns[i]);
      FieldChecked(fields[i], columns[i], want);
    }
  }

  lemma FieldChecked(field: Json, column: (string, string), want: map<string, string>)
    requires SaysField(field, column)
    ensures TypeAsPredicted(field, want) <==> (column.0 != "__rowkey" && column.0 in want ==> want[column.0] == column.1)
  {
  }

  /** The row shows this key: the value of its cell 0. */
  predicate SaysKey(row: Json, key: string) {
    row.JObj? && "0" in row.members && row.members["0"].JObj? && HasMember(row.members["0"].members, "value", JStr(key))
  }

  lemma {:induction false} KeysSaid(rows: seq<Json>, keys: seq<string>)
    requires |rows| == |keys| && forall i :: 0 <= i < |rows| ==> SaysKey(rows[i], keys[i])
    ensures RowKeys(rows) == keys
  {
    if rows != [] {
      KeysSaid(rows[1..], keys[1..]);
      assert ShownKey()(rows[0]) == [keys[0]];
      assert keys == [keys[0]] + keys[1..];
    }
  }

  /**
   A document whose last observation shows these keys and columns is accepted exactly when the keys
   are the predicted ones, in whatever order, and no predicted column has another type.
   */
  lemma FinalCheckedExactly(out: map<string, Json>, s: Said, keys: seq<string>, columns: seq<(string, string)>,
                            wantKeys: seq<string>, wantTypes: map<string, string>)
    requires "observations" in out && out["observations"].JArr? && out["observations"].items != []
    requires SaysObservation(out["observations"].items[|out["observations"].items| - 1], s)
    requires SaysColumns(s.schema, columns)
    requires |s.rows| == |keys| && forall i :: 0 <= i < |keys| ==> SaysKey(s.rows[i], keys[i])
    ensures FinalAsPredicted(out, wantKeys, wantTypes) <==>
            multiset(keys) == multiset(wantKeys) && ColumnsFit(columns, wantTypes)
  {
    hide ColumnsFit, SaysKey, RowKeys, TypesAsPredicted;
    KeysSaid(s.rows, keys);
    TypesCheckedExactly(s.schema.items, columns, wantTypes);
    hide SaysColumns;
    FinalSaid(out, s, wantKeys, wantTypes);
  }

  lemma FinalSaid(out: map<string, Json>, s: Said, wantKeys: seq<string>, wantTypes: map<string, string>)
    requires "observations" in out && out["observations"].JArr? && out["observations"].items != []
    requires SaysObservation(out["observations"].items[|out["observations"].items| - 1], s) && s.schema.JArr?
    ensures FinalAsPredicted(out, wantKeys, wantTypes) <==>
            SameBag(RowKeys(s.rows), wantKeys) && TypesAsPredicted(s.schema.items, wantTypes)
  {
    hide RowKeys, TypesAsPredicted, SameBag;
    assert Arr(Get(out, "observations")) == out["observations"].items;
    var final := out["observations"].items[|out["observations"].items| - 1];
    assert MembersOf(final) == final.members;
    assert RowsOf(final.members) == s.rows;
    assert Arr(Get(final.members, "iceberg-schema")) == s.schema.items;
  }
}
