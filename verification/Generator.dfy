/**
 `gen.go`: random op-logs. The random source is an arbitrary stream of choices, so every contract
 here holds for every seed.
 */
module Generator {
  import opened Wrappers
  import opened Text
  import opened Seqs
  import opened Values
  import opened Numerals
  import opened GenLog
  import opened GenState
  import opened Draws

  /** `rand.Rand`: each call consumes one choice. */
  class Rand {
    const stream: Stream
    var pos: nat

    constructor (stream: Stream)
      ensures this.stream == stream && pos == 0
    {
      this.stream := stream;
      pos := 0;
    }

    method Intn(n: nat) returns (r: nat)
      requires n > 0
      modifies this
      ensures r == Below(stream, old(pos), n) && pos == old(pos) + 1
    {
      r := stream(pos) % n;
      pos := pos + 1;
    }
  }

  // ----- values

  method RandHex(r: Rand, n: nat) returns (s: string)
    modifies r
    ensures |s| == n * 2 && AllHex(s)
    ensures s == HexAt(r.stream, old(r.pos), n * 2) && r.pos == old(r.pos) + n * 2
  {
    s := "";
    NoDraws(r.stream, r.pos);
    hide HexAt, AllHex;
    while |s| < n * 2
      invariant |s| <= n * 2 && AllHex(s)
      invariant s == HexAt(r.stream, old(r.pos), |s|) && r.pos == old(r.pos) + |s|
    {
      var d := r.Intn(16);
      HexDrawn(r.stream, old(r.pos), s);
      s := s + ["0123456789abcdef"[d]];
    }
  }

  lemma NoDraws(stream: Stream, pos: nat)
    ensures HexAt(stream, pos, 0) == "" && AllHex("")
  {
  }

  lemma HexDrawn(stream: Stream, pos: nat, s: string)
    requires s == HexAt(stream, pos, |s|) && AllHex(s)
    ensures var d := "0123456789abcdef"[Below(stream, pos + |s|, 16)];
            s + [d] == HexAt(stream, pos, |s| + 1) && AllHex(s + [d])
  {
    SixteenDigits("0123456789abcdef"[Below(stream, pos + |s|, 16)]);
    hide IsHex;
    assert HexAt(stream, pos, |s| + 1) == HexAt(stream, pos, |s|) + ["0123456789abcdef"[Below(stream, pos + |s|, 16)]];
  }

  method RandUuid(r: Rand) returns (s: string)
    modifies r
    ensures IsUuidText(s)
    ensures s == Dashed(HexAt(r.stream, old(r.pos), 32)) && r.pos == old(r.pos) + 32
  {
    var h := RandHex(r, 16);
    s := h[0..8] + "-" + h[8..12] + "-" + h[12..16] + "-" + h[16..20] + "-" + h[20..32];
  }

  method RandString(r: Rand) returns (s: string)
    modifies r
    ensures 1 <= |s| <= 5
    ensures var n := 1 + Below(r.stream, old(r.pos), 5);
            s == LettersAt(r.stream, old(r.pos) + 1, n) && r.pos == old(r.pos) + 1 + n
  {
    var more := r.Intn(5);
    s := "";
    while |s| < 1 + more
      invariant |s| <= 1 + more
      invariant s == LettersAt(r.stream, old(r.pos) + 1, |s|) && r.pos == old(r.pos) + 1 + |s|
    {
      var d := r.Intn(26);
      s := s + ["abcdefghijklmnopqrstuvwxyz"[d]];
    }
  }

  method IntegerText(n: int) returns (s: string)
    requires Fits32(n) || Fits64(n)
    ensures s == Itoa(n) && ParseInt(s) == Some(n)
  {
    ItoaRoundTrip(n);
    s := Itoa(n);
  }

  lemma EighthsDenote(k: nat)
    ensures Denotes(FractionText(k, 8), k, 8) && ShortestText(FractionText(k, 8))
  {
    assert Pow10(6) == 125000 * 8;
    FractionParses(k, 8, 125000);
    FractionShortest(k, 8, 125000);
  }

  lemma SixtyFourthsDenote(k: nat)
    ensures Denotes(FractionText(k, 64), k, 64) && ShortestText(FractionText(k, 64))
  {
    assert Pow10(6) == 15625 * 64;
    FractionParses(k, 64, 15625);
    FractionShortest(k, 64, 15625);
  }

  /** `genValue`: the value always fits the column type it was drawn for. */
  method GenValue(r: Rand, ty: string) returns (v: TypedVal)
    modifies r
    ensures ValueFits(ty, v)
    ensures ty == "float" ==> exists k :: 0 <= k < 1000 && Denotes(v.scalar, k, 8)
    ensures ty == "double" ==> exists k :: 0 <= k < 100000 && Denotes(v.scalar, k, 64)
    ensures Drawn(v, r.pos) == ValueAt(r.stream, old(r.pos), ty)
  {
    hide HexAt, LettersAt, Dashed, Itoa, NatText, Digit;
    hide ParseNumeral, ParseInt, Denotes, FractionText, IsUuidText, AllHex, FitsDecimal, ShortestText;
    if ty == "int" {
      var n: int := r.Intn(2000);
      var s := IntegerText(n - 1000);
      return TypedVal("int", s, false);
    }
    if ty == "long" {
      var far := r.Intn(3);
      var s: string;
      if far == 0 {
        var n := r.Intn(1000000);
        s := IntegerText(3000000000 + n);
      } else {
        var n: int := r.Intn(2000);
        s := IntegerText(n - 1000);
      }
      return TypedVal("long", s, false);
    }
    if ty == "float" {
      var k := r.Intn(1000);
      EighthsDenote(k);
      return TypedVal("float", FractionText(k, 8), false);
    }
    if ty == "double" {
      var k := r.Intn(100000);
      SixtyFourthsDenote(k);
      return TypedVal("double", FractionText(k, 64), false);
    }
    if ty == "boolean" {
      var k := r.Intn(2);
      return TypedVal("boolean", if k == 0 then "true" else "false", false);
    }
    if ty == "uuid" {
      var s := RandUuid(r);
      return TypedVal("uuid", s, false);
    }
    if HasPrefix(ty, "fixed[") {
      var s := RandHex(r, 4);
      assert ty[0] == ty[..6][0] == 'f';
      return TypedVal("fixed", s, false);
    }
    if HasPrefix(ty, "decimal(") {
      var whole := r.Intn(1000);
      var cents := r.Intn(100);
      CentsParse(whole, cents);
      return TypedVal("decimal", NatText(whole) + "." + [Digit(cents / 10), Digit(cents % 10)], false);
    }
    var s := RandString(r);
    v := TypedVal("string", s, false);
  }

  // ----- append

  ghost predicate ValsFit(schema: seq<GenField>, vals: map<string, TypedVal>, n: nat)
    requires n <= |schema|
  {
    && (forall i :: 0 <= i < n && schema[i].required ==> schema[i].name in vals)
    && (forall name :: name in vals ==> Declares(schema, name) && ValueFits(TypeNamed(schema, name), vals[name]))
  }

  method GenVals(r: Rand, schema: seq<GenField>) returns (vals: map<string, TypedVal>)
    requires DistinctFields(schema)
    modifies r
    ensures ValsFit(schema, vals, |schema|)
    ensures Drawn(vals, r.pos) == ValsAt(r.stream, old(r.pos), schema)
  {
    hide ValueFits, TypeNamed, DistinctFields, ValueAt;
    vals := map[];
    var i := 0;
    while i < |schema|
      invariant 0 <= i <= |schema|
      invariant ValsFit(schema, vals, i)
      invariant Drawn(vals, r.pos) == ValsAt(r.stream, old(r.pos), schema[..i])
    {
      assert schema[..i + 1][..i] == schema[..i];
      var f := schema[i];
      var skip := 1;
      if !f.required {
        skip := r.Intn(4);
      }
      if skip != 0 {
        var v := GenValue(r, f.ty);
        TypeNamedAt(schema, i);
        assert Declares(schema, f.name);
        vals := vals[f.name := v];
      }
      i := i + 1;
    }
    assert schema[..i] == schema;
  }

  /** Fresh rows: keys `first`, `first + 1`, ... and values of the schema in force. */
  ghost predicate FreshRows(schema: seq<GenField>, rows: seq<GenRow>, first: nat) {
    forall i :: 0 <= i < |rows| ==> rows[i].rowKey == RowKeyText(first + i) && RowFits(schema, rows[i])
  }

  /** One row: the next key, and values for the columns. */
  method GenRowOf(r: Rand, st: State) returns (row: Row, ghost read: GenRow)
    requires DistinctFields(st.schema)
    modifies r, st`nextRowKey
    ensures st.nextRowKey == old(st.nextRowKey) + 1
    ensures row.cells.key == row.rowKey && fresh(row.cells) && read == Read(row)
    ensures read.rowKey == RowKeyText(old(st.nextRowKey)) && RowFits(st.schema, read)
    ensures Drawn(read.vals, r.pos) == ValsAt(r.stream, old(r.pos), st.schema)
  {
    hide RowFits, RowKeyText, ValsAt;
    var key := RowKeyText(st.nextRowKey);
    st.nextRowKey := st.nextRowKey + 1;
    var vals := GenVals(r, st.schema);
    ValsMakeRow(st.schema, key, vals);
    var cells := new Cells(key, vals);
    row, read := Row(key, cells), GenRow(key, vals);
  }

  lemma NoRowsAt(stream: Stream, pos: nat, schema: seq<GenField>, first: nat)
    ensures RowsAt(stream, pos, schema, first, 0) == Drawn([], pos)
  {
  }

  lemma RowDrawn(stream: Stream, start: nat, schema: seq<GenField>, first: nat, read: seq<GenRow>, pos: nat, row: GenRow, next: nat)
    requires Drawn(read, pos) == RowsAt(stream, start, schema, first, |read|)
    requires row.rowKey == RowKeyText(first + |read|) && Drawn(row.vals, next) == ValsAt(stream, pos, schema)
    ensures Drawn(read + [row], next) == RowsAt(stream, start, schema, first, |read + [row]|)
  {
    hide ValsAt, RowKeyText;
    NamesSpelled(first + |read|);
  }

  /** `genAppend`: one to three rows with fresh keys, each with a value map of its own. */
  method GenAppend(r: Rand, st: State) returns (rows: seq<Row>, ghost read: seq<GenRow>)
    requires DistinctFields(st.schema)
    modifies r, st`nextRowKey
    ensures 1 <= |rows| <= 3
    ensures st.nextRowKey == old(st.nextRowKey) + |rows|
    ensures OwnRows(rows) && RowsRead(rows, read) && read != [] && FreshRows(st.schema, read, old(st.nextRowKey))
    ensures forall i :: 0 <= i < |rows| ==> fresh(rows[i].cells)
    ensures Drawn(read, r.pos) ==
              RowsAt(r.stream, old(r.pos) + 1, st.schema, old(st.nextRowKey), 1 + Below(r.stream, old(r.pos), 3))
  {
    hide RowFits, RowKeyText, ValsAt, RowsAt;
    var more := r.Intn(3);
    rows, read := [], [];
    NoRowsAt(r.stream, r.pos, st.schema, st.nextRowKey);
    while |rows| < 1 + more
      invariant |rows| <= 1 + more
      invariant st.nextRowKey == old(st.nextRowKey) + |rows|
      invariant OwnRows(rows) && RowsRead(rows, read) && FreshRows(st.schema, read, old(st.nextRowKey))
      invariant forall i :: 0 <= i < |rows| ==> fresh(rows[i].cells)
      invariant Drawn(read, r.pos) == RowsAt(r.stream, old(r.pos) + 1, st.schema, old(st.nextRowKey), |rows|)
    {
      ghost var pos := r.pos;
      var row, copy := GenRowOf(r, st);
      RowDrawn(r.stream, old(r.pos) + 1, st.schema, old(st.nextRowKey), read, pos, copy, r.pos);
      rows, read := rows + [row], read + [copy];
    }
  }

  lemma ValsMakeRow(schema: seq<GenField>, key: string, vals: map<string, TypedVal>)
    requires ValsFit(schema, vals, |schema|)
    ensures RowFits(schema, GenRow(key, vals))
  {
  }

  lemma KeysAreFresh(g: Replayed, rows: seq<GenRow>, first: nat)
    requires OlderKeys(g.keys, first) && FreshRows(g.schema, rows, first)
    ensures Distinct(Keys(rows)) && forall i :: 0 <= i < |rows| ==> rows[i].rowKey !in g.keys
  {
    hide OlderKeys, RowKeyText, RowFits;
    forall i | 0 <= i < |rows| ensures rows[i].rowKey !in g.keys {
      RowKeyFresh(g.keys, first, first + i);
    }
    PrintedKeysDistinct(rows, first);
  }

  lemma PrintedKeysDistinct(rows: seq<GenRow>, first: nat)
    requires forall i :: 0 <= i < |rows| ==> rows[i].rowKey == RowKeyText(first + i)
    ensures Distinct(Keys(rows))
  {
    hide RowKeyText;
    forall i, j | 0 <= i < j < |rows| ensures Keys(rows)[i] != Keys(rows)[j] {
      RowKeyInjective(first + i, first + j);
    }
  }

  lemma KeysGrowOlder(g: Replayed, rows: seq<GenRow>, first: nat)
    requires OlderKeys(g.keys, first) && FreshRows(g.schema, rows, first)
    ensures OlderKeys(g.keys + KeySet(Keys(rows)), first + |rows|)
  {
    forall k | k in g.keys + KeySet(Keys(rows)) ensures OlderKey(k, first + |rows|) {
      if k in g.keys {
        var i: nat :| i < first && k == RowKeyText(i);
      } else {
        var i :| 0 <= i < |rows| && Keys(rows)[i] == k;
        assert k == RowKeyText(first + i);
      }
    }
  }

  lemma NewIdsOk(g: Replayed, rows: seq<GenRow>)
    requires IdsOk(g) && forall i :: 0 <= i < |rows| ==> RowFits(g.schema, rows[i])
    ensures IdsOk(g.(live := g.live + rows))
  {
    var i := FieldIndex(g.schema, 1).value;
    TypeNamedAt(g.schema, i);
  }

  /** Appending fresh rows is meaningful and keeps the state in step with the replay. */
  lemma AppendTracks(
    schema: seq<GenField>, m: map<string, GenRow>, binds: seq<string>, first: nat, g: Replayed, rows: seq<GenRow>)
    requires Tracks(schema, m, binds, first, g)
    requires FreshRows(schema, rows, first) && rows != []
    ensures Meaningful(g, AppendOp(rows))
    ensures Tracks(schema, WithRows(m, rows), binds, first + |rows|, ReplayStep(g, AppendOp(rows)))
  {
    hide OlderKeys, IdsOk, TracksBinds, TracksRows, RowFits, IdTagsOk, WithRows;
    hide FreshRows, KeySet, LiveKnown, HasIdColumn, Meaningful;
    AppendIsMeaningful(g, rows, first);
    KeysGrowOlder(g, rows, first);
    TrackedDistinct(m, g);
    AppendKeepsDistinct(g, rows);
    WithRowsTracks(m, g.live, rows);
    KnownWith(g, rows);
    AppendedIds(schema, m, g, rows, first);
  }

  lemma AppendIsMeaningful(g: Replayed, rows: seq<GenRow>, first: nat)
    requires OlderKeys(g.keys, first) && FreshRows(g.schema, rows, first) && rows != []
    ensures Meaningful(g, AppendOp(rows))
  {
    hide OlderKeys, RowFits;
    KeysAreFresh(g, rows, first);
  }

  lemma TrackedDistinct(m: map<string, GenRow>, g: Replayed)
    requires TracksRows(m, g.live) && LiveKnown(g)
    ensures Distinct(Keys(g.live)) && forall i :: 0 <= i < |g.live| ==> g.live[i].rowKey in g.keys
  {
  }

  lemma KnownWith(g: Replayed, rows: seq<GenRow>)
    requires LiveKnown(g)
    ensures LiveKnown(ReplayStep(g, AppendOp(rows)))
    ensures ReplayStep(g, AppendOp(rows)).keys == g.keys + KeySet(Keys(rows))
  {
    forall i | 0 <= i < |rows| ensures rows[i].rowKey in Keys(rows) {
      assert Keys(rows)[i] == rows[i].rowKey;
    }
  }

  lemma AppendedIds(schema: seq<GenField>, m: map<string, GenRow>, g: Replayed, rows: seq<GenRow>, first: nat)
    requires IdsOk(g) && IdTagsOk(schema, m) && schema == g.schema && FreshRows(schema, rows, first)
    ensures IdsOk(ReplayStep(g, AppendOp(rows))) && IdTagsOk(schema, WithRows(m, rows))
  {
    hide IdsOk, IdTagsOk, WithRows, RowFits, HasIdColumn;
    NewIdsOk(g, rows);
    HasIds(g);
    WithRowsIdTags(schema, m, rows);
    IdsIgnoreKeys(g.(live := g.live + rows), ReplayStep(g, AppendOp(rows)));
  }

  lemma HasIds(g: Replayed)
    requires IdsOk(g)
    ensures HasIdColumn(g.schema)
  {
  }

  lemma IdsIgnoreKeys(g: Replayed, g': Replayed)
    requires IdsOk(g) && g'.schema == g.schema && g'.live == g.live
    ensures IdsOk(g')
  {
  }

  // ----- delete

  /** `genDelete`: a live row's id as predicate, and the keys the state loses by it. */
  method GenDelete(r: Rand, st: State, ghost g: Replayed) returns (op: Option<Op>, removed: seq<string>)
    requires Tracks(st.schema, ViewOf(st.rows), st.binds, st.nextRowKey, g)
    modifies r
    ensures op.None? <==> g.live == []
    ensures op.Some? ==>
              && op.value.DeleteOp? && Meaningful(g, op.value)
              && Tracks(st.schema, ViewOf(st.rows) - KeySet(removed), st.binds, st.nextRowKey, ReplayStep(g, op.value))
    ensures op.Some? ==>
              Drawn(op.value, r.pos) == DeleteAt(r.stream, old(r.pos), Seen(g, |st.binds|, st.nextRowKey))
  {
    hide OlderKeys, TracksBinds, TracksRows, IdsOk, IdTagsOk, LiveKnown, HasIdColumn, ReplayStep, Meaningful, KeySet;
    hide DeleteAt, SortedBy, Distinct;
    removed := [];
    ghost var view := ViewOf(st.rows);
    var keys := st.LiveRowKeys();
    ListingLength(view, g.live, keys);
    if |keys| == 0 {
      return None, [];
    }
    var pick := r.Intn(|keys|);
    assert ViewOf(st.rows) == view;
    assert keys[pick] in view;
    var victim := Read(st.rows[keys[pick]]);
    var f := FieldIndex(st.schema, 1);
    IdFieldFound(g);
    if f.None? {
      return None, [];
    }
    var name := st.schema[f.value].name;
    VictimHasId(view, g, keys[pick]);
    assert name == IdName(st.schema);
    if name !in victim.vals || victim.vals[name].isNull {
      return None, [];
    }
    var idVal := victim.vals[name];
    removed := SameIdKeys(st.rows, keys, name, idVal.scalar);
    op := Some(DeleteOp(name, idVal));
    DeleteTracks(st.schema, view, st.binds, st.nextRowKey, g, keys[pick], removed);
    DeleteDrawn(r.stream, r.pos - 1, Seen(g, |st.binds|, st.nextRowKey), view, keys);
    assert ViewOf(st.rows) == view;
  }

  lemma KeyedRow(live: seq<GenRow>, i: nat)
    requires i < |live| && forall j :: 0 <= j < i ==> live[j].rowKey != live[i].rowKey
    ensures RowKeyed(live, live[i].rowKey) == live[i]
  {
    if i > 0 {
      KeyedRow(live[1..], i - 1);
    }
  }

  /** The delete the stream draws, over the state's copy of the victim. */
  lemma DeleteDrawn(stream: Stream, pos: nat, v: Seen, rows: map<string, GenRow>, keys: seq<string>)
    requires TracksRows(rows, v.g.live) && IdsOk(v.g) && IdTagsOk(v.g.schema, rows) && keys != []
    requires Distinct(keys) && SortedBy(Self, keys) && forall k :: k in keys <==> k in rows
    ensures HasIdColumn(v.g.schema) && keys[Below(stream, pos, |keys|)] in rows
    ensures var victim := rows[keys[Below(stream, pos, |keys|)]];
            && IdName(v.g.schema) in victim.vals
            && DeleteAt(stream, pos, v) == Drawn(DeleteOp(IdName(v.g.schema), victim.vals[IdName(v.g.schema)]), pos + 1)
  {
    hide IdsOk, IdTagsOk, SortedBy, HasIdColumn, TracksRows, RowKeyed;
    SortedKeysUnique(rows, v.g.live, keys);
    var k := keys[Below(stream, pos, |keys|)];
    assert k in rows;
    VictimHasId(rows, v.g, k);
    VictimKeyed(rows, v.g.live, k);
    IdOf(v.g, rows, k);
  }

  /** The live row under a key of the state reads as the state's copy. */
  lemma VictimKeyed(rows: map<string, GenRow>, live: seq<GenRow>, k: string)
    requires TracksRows(rows, live) && k in rows
    ensures SameCells(rows[k], RowKeyed(live, k))
  {
    hide SameCells, RowKeyed;
    assert HasKey(live, k);
    var i :| 0 <= i < |live| && live[i].rowKey == k;
    assert Keys(live)[i] == k;
    forall j | 0 <= j < i ensures live[j].rowKey != k {
      assert Keys(live)[j] != Keys(live)[i];
    }
    KeyedRow(live, i);
  }


  /** The state's copy shows its id under the id column's tag. */
  lemma IdOf(g: Replayed, rows: map<string, GenRow>, k: string)
    requires IdsOk(g) && IdTagsOk(g.schema, rows) && k in rows
    ensures HasIdColumn(g.schema) && FieldIndex(g.schema, 1).Some?
    ensures g.schema[FieldIndex(g.schema, 1).value].name == IdName(g.schema)
    ensures g.schema[FieldIndex(g.schema, 1).value].ty == IdType(g.schema)
    ensures IdName(g.schema) in rows[k].vals && rows[k].vals[IdName(g.schema)].tag == TagOf(IdType(g.schema))
  {
  }

  predicate SameId(r: GenRow, name: string, scalar: string) {
    name in r.vals && !r.vals[name].isNull && r.vals[name].scalar == scalar
  }

  /** The loop of `genDelete`: the listed keys whose row carries the victim's id text. */
  method SameIdKeys(rows: map<string, Row>, keys: seq<string>, name: string, scalar: string)
    returns (removed: seq<string>)
    requires forall k :: k in keys ==> k in rows
    ensures forall k :: k in removed <==> k in keys && SameId(Read(rows[k]), name, scalar)
  {
    hide SameId;
    removed := [];
    var i := 0;
    while i < |keys|
      invariant 0 <= i <= |keys|
      invariant forall k :: k in removed <==> k in keys[..i] && SameId(Read(rows[k]), name, scalar)
    {
      assert forall k :: k in keys[..i + 1] <==> k in keys[..i] || k == keys[i];
      if SameId(Read(rows[keys[i]]), name, scalar) {
        removed := removed + [keys[i]];
      }
      i := i + 1;
    }
    assert keys[..i] == keys;
  }

  lemma IdFieldFound(g: Replayed)
    requires IdsOk(g)
    ensures HasIdColumn(g.schema) && FieldIndex(g.schema, 1).Some?
    ensures g.schema[FieldIndex(g.schema, 1).value].name == IdName(g.schema)
  {
  }

  lemma ListingLength(rows: map<string, GenRow>, live: seq<GenRow>, keys: seq<string>)
    requires TracksRows(rows, live) && forall k :: k in keys <==> k in rows
    ensures |keys| == 0 <==> live == []
  {
    if live != [] {
      assert live[0].rowKey in keys;
    }
    if |keys| > 0 {
      assert keys[0] in rows;
      assert HasKey(live, keys[0]);
    }
  }

  /** Every row the state holds carries a usable id: the branches that give up are never taken. */
  lemma VictimHasId(rows: map<string, GenRow>, g: Replayed, k: string)
    requires TracksRows(rows, g.live) && IdsOk(g) && k in rows
    ensures IdCellOk(IdType(g.schema), IdName(g.schema), rows[k])
    ensures HasIdColumn(g.schema)
  {
    assert HasKey(g.live, k);
    var i :| 0 <= i < |g.live| && g.live[i].rowKey == k;
    assert SameCells(rows[k], g.live[i]);
  }

  lemma RowsHaveIds(rows: map<string, GenRow>, g: Replayed)
    requires TracksRows(rows, g.live) && IdsOk(g)
    ensures HasIdColumn(g.schema)
    ensures forall k :: k in rows ==> IdName(g.schema) in rows[k].vals && !rows[k].vals[IdName(g.schema)].isNull
  {
    forall k | k in rows ensures IdName(g.schema) in rows[k].vals && !rows[k].vals[IdName(g.schema)].isNull {
      VictimHasId(rows, g, k);
    }
  }

  /** Comparing ids as text, in canonical form, is comparing them as values. */
  lemma IdTextIsValue(ty: string, name: string, a: GenRow, b: GenRow)
    requires IdCellOk(ty, name, a) && IdCellOk(ty, name, b)
    ensures SameValue(ty, a.vals[name].scalar, b.vals[name].scalar) <==> a.vals[name].scalar == b.vals[name].scalar
  {
    CanonicalIsValue(ty, a.vals[name].scalar, b.vals[name].scalar);
  }

  /** A live row is hit exactly when the state's copy has the victim's id text. */
  lemma HitIsSameId(rows: map<string, GenRow>, g: Replayed, victim: string, i: nat)
    requires TracksRows(rows, g.live) && IdsOk(g) && victim in rows && i < |g.live|
    ensures HasIdColumn(g.schema) && IdName(g.schema) in rows[victim].vals && g.live[i].rowKey in rows
    ensures var name := IdName(g.schema);
            Hit(g.schema, name, rows[victim].vals[name], g.live[i]) <==>
              SameId(rows[g.live[i].rowKey], name, rows[victim].vals[name].scalar)
  {
    VictimHasId(rows, g, victim);
    var row := g.live[i];
    assert SameCells(rows[row.rowKey], row);
    TypeNamedAt(g.schema, FieldIndex(g.schema, 1).value);
    IdTextIsValue(IdType(g.schema), IdName(g.schema), row, rows[victim]);
  }

  lemma DeleteTracks(
    schema: seq<GenField>, rows: map<string, GenRow>, binds: seq<string>, next: nat, g: Replayed,
    victim: string, removed: seq<string>)
    requires Tracks(schema, rows, binds, next, g) && victim in rows
    requires IdName(schema) in rows[victim].vals
    requires forall k :: k in removed <==> k in rows && SameId(rows[k], IdName(schema), rows[victim].vals[IdName(schema)].scalar)
    ensures var op := DeleteOp(IdName(schema), rows[victim].vals[IdName(schema)]);
            Meaningful(g, op) && Tracks(schema, rows - KeySet(removed), binds, next, ReplayStep(g, op))
  {
    hide OlderKeys, TracksBinds;
    var name := IdName(schema);
    var value := rows[victim].vals[name];
    forall i | 0 <= i < |g.live|
      ensures g.live[i].rowKey in KeySet(removed) <==> !Missed(schema, name, value)(g.live[i])
    {
      HitIsSameId(rows, g, victim, i);
    }
    WithoutKeysTracks(rows, g.live, Missed(schema, name, value), KeySet(removed));
    VictimIsHit(rows, g, victim);
    KeptIdsOk(g, Missed(schema, name, value));
  }

  lemma VictimIsHit(rows: map<string, GenRow>, g: Replayed, victim: string)
    requires TracksRows(rows, g.live) && IdsOk(g) && victim in rows && IdTagsOk(g.schema, rows)
    ensures HasIdColumn(g.schema) && IdName(g.schema) in rows[victim].vals
    ensures Meaningful(g, DeleteOp(IdName(g.schema), rows[victim].vals[IdName(g.schema)]))
  {
    VictimHasId(rows, g, victim);
    assert HasKey(g.live, victim);
    var i :| 0 <= i < |g.live| && g.live[i].rowKey == victim;
    HitIsSameId(rows, g, victim, i);
    TypeNamedAt(g.schema, FieldIndex(g.schema, 1).value);
    assert g.schema[FieldIndex(g.schema, 1).value].name == IdName(g.schema);
  }

  lemma KeptIdsOk(g: Replayed, kept: GenRow -> bool)
    requires IdsOk(g) && LiveKnown(g)
    ensures IdsOk(g.(live := Filter(kept, g.live))) && LiveKnown(g.(live := Filter(kept, g.live)))
  {
    var rest := Filter(kept, g.live);
    forall i | 0 <= i < |rest| ensures IdCellOk(IdType(g.schema), IdName(g.schema), rest[i]) && rest[i].rowKey in g.keys {
      FilterIn(kept, g.live, rest[i]);
      assert rest[i] in g.live;
    }
  }

  // ----- promote

  /** The candidate loop of `genPromote`. */
  method PromotableFields(schema: seq<GenField>) returns (candidates: seq<GenField>)
    ensures candidates == Candidates(schema) && |candidates| == Promotable(schema)
    ensures forall f :: f in candidates ==> f in schema && LegalTargets(f.ty) != []
  {
    hide LegalTargets;
    candidates := [];
    var i := 0;
    while i < |schema|
      invariant 0 <= i <= |schema|
      invariant forall f :: f in candidates ==> f in schema && LegalTargets(f.ty) != []
      invariant Promotable(schema) == |candidates| + Promotable(schema[i..])
      invariant candidates == Candidates(schema[..i])
    {
      assert schema[..i + 1][..i] == schema[..i];
      if LegalTargets(schema[i].ty) != [] {
        candidates := candidates + [schema[i]];
      }
      assert schema[i..][1..] == schema[i + 1..];
      i := i + 1;
    }
    assert schema[..i] == schema;
  }

  /** `genPromote`: a column with a legal wider target, when there is one. */
  method GenPromote(r: Rand, st: State, ghost g: Replayed) returns (op: Option<Op>)
    requires Tracks(st.schema, ViewOf(st.rows), st.binds, st.nextRowKey, g)
    requires DistinctIds(st.schema)
    modifies r
    ensures op.None? <==> Promotable(st.schema) == 0
    ensures op.Some? ==> op.value.PromoteOp? && Meaningful(g, op.value)
    ensures op.Some? ==>
              Drawn(op.value, r.pos) == PromoteAt(r.stream, old(r.pos), Seen(g, |st.binds|, st.nextRowKey))
  {
    hide OlderKeys, TracksBinds, TracksRows, IdsOk, IdTagsOk, LiveKnown, DistinctIds;
    var candidates := PromotableFields(st.schema);
    if |candidates| == 0 {
      return None;
    }
    var pick := r.Intn(|candidates|);
    var f := candidates[pick];
    assert f in candidates;
    var target := r.Intn(|LegalTargets(f.ty)|);
    ById(st.schema, f);
    op := Some(PromoteOp(f.id, LegalTargets(f.ty)[target]));
  }

  predicate DistinctIds(schema: seq<GenField>) {
    forall i, j :: 0 <= i < j < |schema| ==> schema[i].id != schema[j].id
  }

  lemma ById(schema: seq<GenField>, f: GenField)
    requires DistinctIds(schema) && f in schema
    ensures FieldIndex(schema, f.id).Some? && schema[FieldIndex(schema, f.id).value] == f
  {
    var i :| 0 <= i < |schema| && schema[i] == f;
    assert schema[i].id == f.id;
  }

  /** A promotion keeps ids, names and the id cells: widening an integer leaves its text alone. */
  lemma PromoteIdsOk(g: Replayed, id: int, to: string)
    requires IdsOk(g) && Meaningful(g, PromoteOp(id, to))
    ensures IdsOk(ReplayStep(g, PromoteOp(id, to)))
    ensures DistinctIds(g.schema) ==> DistinctIds(Retyped(g.schema, id, to))
  {
    RetypedFields(g.schema, id, to);
    FieldIndexById(g.schema, Retyped(g.schema, id, to), 1);
  }

  lemma RetagIds(schema: seq<GenField>, rows: map<string, GenRow>, after: map<string, GenRow>, id: int, to: string)
    requires HasIdColumn(schema) && IdTagsOk(schema, rows) && HasIdColumn(Retyped(schema, id, to))
    requires FieldIndex(schema, id).Some? && to in LegalTargets(schema[FieldIndex(schema, id).value].ty)
    requires after.Keys == rows.Keys
    requires forall k :: k in rows ==> !rows[k].vals[IdName(schema)].isNull
    requires forall k :: k in rows ==> after[k] == RetagCell(rows[k], schema[FieldIndex(schema, id).value].name, to)
    ensures IdTagsOk(Retyped(schema, id, to), after)
  {
    RetypedFields(schema, id, to);
    FieldIndexById(schema, Retyped(schema, id, to), 1);
    assert TagOf(to) == to;
  }

  lemma PromoteTracks(
    schema: seq<GenField>, rows: map<string, GenRow>, after: map<string, GenRow>, binds: seq<string>, next: nat,
    g: Replayed, id: int, to: string)
    requires Tracks(schema, rows, binds, next, g) && Meaningful(g, PromoteOp(id, to))
    requires after.Keys == rows.Keys
    requires forall k :: k in rows ==> after[k] == RetagCell(rows[k], schema[FieldIndex(schema, id).value].name, to)
    ensures Tracks(Retyped(schema, id, to), after, binds, next, ReplayStep(g, PromoteOp(id, to)))
  {
    hide OlderKeys, TracksBinds, IdsOk, TracksRows, IdTagsOk, HasIdColumn, Meaningful;
    PromoteFound(g, PromoteOp(id, to));
    RetagTracks(rows, after, g.live, schema[FieldIndex(schema, id).value].name, to);
    PromoteIdsOk(g, id, to);
    HasIds(g);
    HasIds(ReplayStep(g, PromoteOp(id, to)));
    RowsHaveIds(rows, g);
    RetagIds(schema, rows, after, id, to);
  }

  // ----- observe

  lemma KnownBind(binds: seq<string>, names: set<string>, i: nat)
    requires TracksBinds(binds, names) && i < |binds|
    ensures binds[i] in names
  {
  }

  lemma BindPrinted(binds: seq<string>, names: set<string>, i: nat)
    requires TracksBinds(binds, names) && i < |binds|
    ensures binds[i] == BindText(i)
  {
  }

  lemma BindNamed(i: nat)
    ensures BindText(i) != ""
  {
  }

  /** `genObserve`: latest, sometimes binding a new name, or a name bound before. */
  method GenObserve(r: Rand, st: State, ghost g: Replayed) returns (op: Op)
    requires Tracks(st.schema, ViewOf(st.rows), st.binds, st.nextRowKey, g)
    modifies r, st`binds
    ensures op.ObserveOp? && Meaningful(g, op)
    ensures Tracks(st.schema, ViewOf(st.rows), st.binds, st.nextRowKey, ReplayStep(g, op))
    ensures Drawn(op, r.pos) == ObserveAt(r.stream, old(r.pos), Seen(g, |old(st.binds)|, st.nextRowKey))
    ensures |st.binds| == |old(st.binds)| + if op.bind == "" then 0 else 1
  {
    hide OlderKeys, IdsOk, TracksRows, IdTagsOk, TracksBinds, BindText, Itoa;
    ghost var view := ViewOf(st.rows);
    if |st.binds| > 0 {
      var travel := r.Intn(3);
      if travel == 0 {
        var pick := r.Intn(|st.binds|);
        assert ViewOf(st.rows) == view;
        KnownBind(st.binds, g.binds, pick);
        BindPrinted(st.binds, g.binds, pick);
        NamesSpelled(pick);
        return ObserveOp(st.binds[pick], "");
      }
    }
    var binding := r.Intn(2);
    op := ObserveOp("latest", "");
    if binding == 0 {
      BindFresh(st.binds, g.binds);
      var bind := BindText(|st.binds|);
      BindNamed(|st.binds|);
      NamesSpelled(|st.binds|);
      op := ObserveOp("latest", bind);
      st.binds := st.binds + [bind];
      IdsIgnoreKeys(g, ReplayStep(g, op));
    }
    assert ViewOf(st.rows) == view;
  }

  // ----- the log


  /** `pickOp`: delete only with live rows, promote only with a candidate column. */
  method PickOp(r: Rand, st: State, feat: Features, ghost v: Seen) returns (c: Choice)
    requires v.g.schema == st.schema && (v.g.live == [] <==> st.rows == map[])
    modifies r
    ensures c == ChooseDelete ==> feat.delete && st.rows != map[]
    ensures c == ChoosePromote ==> feat.promote && Promotable(st.schema) > 0
    ensures c == Choices(v, feat)[Below(r.stream, old(r.pos), |Choices(v, feat)|)] && r.pos == old(r.pos) + 1
  {
    var choices := [ChooseAppend, ChooseObserve];
    if feat.delete && |st.rows| > 0 {
      choices := choices + [ChooseDelete];
    }
    if feat.promote {
      var candidate := st.HasPromotableColumn();
      if candidate {
        choices := choices + [ChoosePromote];
      }
    }
    var pick := r.Intn(|choices|);
    c := choices[pick];
  }

  predicate Permitted(op: Op, feat: Features) {
    (op.DeleteOp? ==> feat.delete) && (op.PromoteOp? ==> feat.promote)
  }

  predicate AllPermitted(ops: seq<Op>, feat: Features) {
    forall i :: 0 <= i < |ops| ==> Permitted(ops[i], feat)
  }

  function Max(a: int, b: int): int {
    if a < b then b else a
  }

  /**
   What `Generate` promises of its log, with the replay as judge: the ops were meaningful where they
   were drawn, the log shows them with what promotions wrote through, and the prediction is the
   replay of the log as it stands.
   */
  ghost predicate SoundLog(log: OpLog, drawn: seq<Op>, count: int, feat: Features) {
    && |log.ops| == Max(count, 1) + 1
    && log.ops[0].AppendOp?
    && log.ops[|log.ops| - 1] == ObserveOp("latest", "")
    && MeaningfulLog(log.schema, drawn)
    && log.ops == Emitted(log.schema, drawn)
    && AllPermitted(log.ops, feat)
    && log.finalRowKeys == SortStrings(Keys(ReplayOps(log.schema, log.ops).live))
    && log.finalTypes == TypesOf(ReplayOps(log.schema, log.ops).schema)
  }

  /** A state with no rows and no binds, over a schema that has an id column. */
  ghost predicate Empty(st: State)
    reads st
  {
    && st.rows == map[] && st.binds == [] && HasIdColumn(st.schema) && DistinctIds(st.schema)
  }

  lemma EmptyTracks(schema: seq<GenField>, next: nat)
    requires HasIdColumn(schema)
    ensures Tracks(schema, map[], [], next, ReplayOps(schema, []))
  {
  }

  /** `drawn` so far is meaningful and permitted, in step with the state, and what the log shows of it. */
  ghost predicate Aligned(start: seq<GenField>, ops: seq<LoggedOp>, drawn: seq<Op>, feat: Features, st: State)
    reads st, FootprintOf(st.rows), LoggedCells(ops)
  {
    && MeaningfulLog(start, drawn) && AllPermitted(drawn, feat)
    && Tracks(st.schema, ViewOf(st.rows), st.binds, st.nextRowKey, ReplayOps(start, drawn))
    && DistinctIds(st.schema)
    && Owned(st.rows) && Shares(ops, st.rows, ReplayOps(start, drawn).keys)
    && ReadsAs(ops, Emitted(start, drawn))
  }

  lemma Logged(start: seq<GenField>, ops: seq<Op>, op: Op, feat: Features)
    requires MeaningfulLog(start, ops) && AllPermitted(ops, feat)
    requires Meaningful(ReplayOps(start, ops), op) && Permitted(op, feat)
    ensures MeaningfulLog(start, ops + [op]) && AllPermitted(ops + [op], feat)
    ensures ReplayOps(start, ops + [op]) == ReplayStep(ReplayOps(start, ops), op)
  {
    MeaningfulSnoc(start, ops, op);
    ReplaySnoc(start, ops, op);
  }

  lemma ReadsSnoc(ops: seq<LoggedOp>, out: seq<Op>, op: LoggedOp, made: Op)
    requires ReadsAs(ops, out) && OpReads(op, made)
    ensures ReadsAs(ops + [op], out + [made])
  {
    var all, shown := ops + [op], out + [made];
    forall i | 0 <= i < |all| ensures OpReads(all[i], shown[i]) {
      assert i < |ops| ==> all[i] == ops[i] && shown[i] == out[i] && OpReads(ops[i], out[i]);
    }
  }

  lemma TrackedSchema(schema: seq<GenField>, rows: map<string, GenRow>, binds: seq<string>, next: nat, g: Replayed)
    requires Tracks(schema, rows, binds, next, g)
    ensures DistinctFields(schema) && schema == g.schema
    ensures rows != map[] ==> g.live != []
  {
    if rows != map[] {
      var k := SomeKey(rows);
      assert HasKey(g.live, k);
    }
  }

  lemma SomeKey(rows: map<string, GenRow>) returns (k: string)
    requires rows != map[]
    ensures k in rows
  {
    assert rows.Keys != {};
    k :| k in rows.Keys;
  }

  lemma PromoteFound(g: Replayed, op: Op)
    requires op.PromoteOp? && Meaningful(g, op)
    ensures FieldIndex(g.schema, op.fieldId).Some?
    ensures op.to in LegalTargets(g.schema[FieldIndex(g.schema, op.fieldId).value].ty)
    ensures DistinctIds(g.schema) ==> DistinctIds(Retyped(g.schema, op.fieldId, op.to))
  {
    RetypedFields(g.schema, op.fieldId, op.to);
  }

  lemma FreshKeysOf(rows: seq<Row>, read: seq<GenRow>, g: Replayed, first: nat)
    requires RowsRead(rows, read) && OlderKeys(g.keys, first) && FreshRows(g.schema, read, first)
    ensures forall i :: 0 <= i < |rows| ==> rows[i].rowKey !in g.keys
    ensures forall i, j :: 0 <= i < j < |rows| ==> rows[i].rowKey != rows[j].rowKey
    ensures (set i | 0 <= i < |rows| :: rows[i].rowKey) == KeySet(Keys(read))
  {
    KeysAreFresh(g, read, first);
    KeysOfRead(rows, read);
    hide RowsRead, FreshRows, OlderKeys, Keys, KeySet;
    var keys := Keys(read);
    forall i, j | 0 <= i < j < |rows| ensures rows[i].rowKey != rows[j].rowKey {
      assert keys[i] != keys[j];
    }
    forall i | 0 <= i < |rows| ensures rows[i].rowKey !in g.keys {
      assert read[i].rowKey == rows[i].rowKey;
    }
    KeySetOf(rows, keys);
  }

  lemma KeysOfRead(rows: seq<Row>, read: seq<GenRow>)
    requires RowsRead(rows, read)
    ensures |Keys(read)| == |read| == |rows|
    ensures forall i :: 0 <= i < |rows| ==> Keys(read)[i] == read[i].rowKey == rows[i].rowKey
  {
  }

  lemma KeySetOf(rows: seq<Row>, keys: seq<string>)
    requires |keys| == |rows| && forall i :: 0 <= i < |rows| ==> keys[i] == rows[i].rowKey
    ensures (set i | 0 <= i < |rows| :: rows[i].rowKey) == KeySet(keys)
  {
    forall i | 0 <= i < |rows| ensures rows[i].rowKey in KeySet(keys) {
      assert keys[i] in keys;
    }
    forall k | k in KeySet(keys) ensures exists i :: 0 <= i < |rows| && rows[i].rowKey == k {
      var i :| 0 <= i < |keys| && keys[i] == k;
    }
  }

  lemma TracksOlder(schema: seq<GenField>, rows: map<string, GenRow>, binds: seq<string>, next: nat, g: Replayed)
    requires Tracks(schema, rows, binds, next, g)
    ensures OlderKeys(g.keys, next) && schema == g.schema
    ensures rows.Keys == KeySet(Keys(g.live))
  {
    forall k ensures k in rows <==> k in KeySet(Keys(g.live)) {
      TracksKeys(rows, g.live, k);
    }
  }

  /** What the next turn sees. */
  ghost function SeenOf(start: seq<GenField>, drawn: seq<Op>, st: State): Seen
    reads st
  {
    Seen(ReplayOps(start, drawn), |st.binds|, st.nextRowKey)
  }

  /** An append: the new rows are logged and filed, one map each for both. */
  method AppendTurn(r: Rand, st: State, feat: Features, ghost start: seq<GenField>, ghost ops: seq<LoggedOp>, ghost drawn: seq<Op>)
    returns (op: LoggedOp, ghost made: Op)
    requires Aligned(start, ops, drawn, feat, st)
    modifies r, st
    ensures made.AppendOp? && op.AppendRows?
    ensures Aligned(start, ops + [op], drawn + [made], feat, st)
    ensures forall c :: c in FootprintOf(st.rows) && c !in old(FootprintOf(st.rows)) ==> fresh(c)
    ensures Drawn(made, r.pos) == AppendAt(r.stream, old(r.pos), old(SeenOf(start, drawn, st)))
    ensures |st.binds| == |old(st.binds)| + Binds(made) && st.nextRowKey == old(st.nextRowKey) + Rows(made)
  {
    hide RowsAt;
    hide Tracks, MeaningfulLog, Meaningful, AllPermitted, DistinctIds, DistinctFields, ReplayStep, ReplayOps, OlderKeys;
    hide KeySet, WithRows, WithLive, Emitted, ReadsAs, Shares, Owned, OwnRows, OpReads, ReadsFrom, FreshRows, Permitted;
    SnapReads(ops, Emitted(start, drawn));
    ghost var g, snap := ReplayOps(start, drawn), SnapOf(ops);
    ghost var view, first, live := ViewOf(st.rows), st.nextRowKey, st.rows;
    TrackedSchema(st.schema, view, st.binds, first, g);
    TracksOlder(st.schema, view, st.binds, first, g);
    var rows, read := GenAppend(r, st);
    assert ViewOf(live) == view;
    AppendTracks(st.schema, view, st.binds, first, g, read);
    FreshKeysOf(rows, read, g, first);
    st.ApplyAppend(rows);
    op := AppendRows(rows);
    made := AppendOp(read);
    assert ViewOf(live) == view;
    ViewWithLive(live, rows, read);
    ReadsKept(snap, ops, Emitted(start, drawn));
    SharesAppended(ops, live, g.keys, rows);
    FootprintGrows(live, rows);
    AppendReads(rows, read);
    ReadsSnoc(ops, Emitted(start, drawn), op, made);
    Logged(start, drawn, made, feat);
    EmittedSnoc(start, drawn, made);
    AppendKeys(g, read);
  }

  lemma AppendReads(rows: seq<Row>, read: seq<GenRow>)
    requires RowsRead(rows, read)
    ensures OpReads(AppendRows(rows), AppendOp(read))
  {
  }

  lemma AppendKeys(g: Replayed, rows: seq<GenRow>)
    ensures ReplayStep(g, AppendOp(rows)).keys == g.keys + KeySet(Keys(rows))
  {
  }

  lemma {:induction false} FootprintGrows(live: map<string, Row>, rows: seq<Row>)
    ensures forall c :: c in FootprintOf(WithLive(live, rows)) ==> c in FootprintOf(live) || c in CellsOfRows(rows)
  {
    if rows != [] {
      var front := rows[..|rows| - 1];
      FootprintGrows(live, front);
      assert forall c :: c in CellsOfRows(front) ==> c in CellsOfRows(rows);
      forall c | c in FootprintOf(WithLive(live, rows)) ensures c in FootprintOf(live) || c in CellsOfRows(rows) {
        var k :| k in WithLive(live, rows) && WithLive(live, rows)[k].cells == c;
        if k == rows[|rows| - 1].rowKey {
          assert c == rows[|rows| - 1].cells;
        } else {
          assert c in FootprintOf(WithLive(live, front));
        }
      }
    }
  }

  /** A delete, which always finds a row: the keys go, the log's rows stay as they are. */
  method DeleteTurn(r: Rand, st: State, feat: Features, ghost start: seq<GenField>, ghost ops: seq<LoggedOp>, ghost drawn: seq<Op>)
    returns (op: Option<LoggedOp>, ghost made: Op)
    requires Aligned(start, ops, drawn, feat, st) && feat.delete && st.rows != map[]
    modifies r, st
    ensures op.Some? && !made.AppendOp? && op.value == Fixed(made)
    ensures Aligned(start, ops + [op.value], drawn + [made], feat, st)
    ensures FootprintOf(st.rows) <= old(FootprintOf(st.rows))
    ensures Drawn(made, r.pos) == DeleteAt(r.stream, old(r.pos), old(SeenOf(start, drawn, st)))
    ensures |st.binds| == |old(st.binds)| + Binds(made) && st.nextRowKey == old(st.nextRowKey) + Rows(made)
  {
    hide DeleteAt;
    hide Tracks, MeaningfulLog, Meaningful, AllPermitted, DistinctIds, DistinctFields, ReplayStep, ReplayOps;
    hide KeySet, Emitted, ReadsAs, Shares, OpReads, ReadsFrom;
    SnapReads(ops, Emitted(start, drawn));
    ghost var g, snap := ReplayOps(start, drawn), SnapOf(ops);
    ghost var view, live := ViewOf(st.rows), st.rows;
    SomeView(live);
    TrackedSchema(st.schema, view, st.binds, st.nextRowKey, g);
    var deletion, removed := GenDelete(r, st, g);
    assert ViewOf(st.rows) == view;
    if deletion.None? {
      return None, ObserveOp("latest", "");
    }
    made := deletion.value;
    op := Some(Fixed(deletion.value));
    st.ApplyDeleteKeys(removed);
    assert ViewOf(live) == view;
    ReadsKept(snap, ops, Emitted(start, drawn));
    ViewWithout(live, KeySet(removed));
    SharesLess(ops, live, st.rows, g.keys);
    SharesFixed(ops, st.rows, g.keys, made);
    FixedReads(made);
    ReadsSnoc(ops, Emitted(start, drawn), Fixed(made), made);
    Logged(start, drawn, made, feat);
    EmittedSnoc(start, drawn, made);
    DeleteKeepsKeys(g, made);
  }

  lemma SomeView(rows: map<string, Row>)
    requires rows != map[]
    ensures ViewOf(rows) != map[]
  {
    assert rows.Keys != {};
    var k :| k in rows.Keys;
    assert k in ViewOf(rows);
  }

  lemma FixedReads(op: Op)
    requires !op.AppendOp?
    ensures OpReads(Fixed(op), op)
  {
  }

  lemma DeleteKeepsKeys(g: Replayed, op: Op)
    requires !op.AppendOp?
    ensures ReplayStep(g, op).keys == g.keys
  {
  }

  /** A promotion: the live rows' cells are re-tagged in place, so the log shows the new tags too. */
  method PromoteTurn(r: Rand, st: State, feat: Features, ghost start: seq<GenField>, ghost ops: seq<LoggedOp>, ghost drawn: seq<Op>)
    returns (op: Option<LoggedOp>, ghost made: Op)
    requires Aligned(start, ops, drawn, feat, st) && feat.promote && Promotable(st.schema) > 0
    modifies r, st, FootprintOf(st.rows)
    ensures op.Some? && !made.AppendOp? && op.value == Fixed(made)
    ensures Aligned(start, ops + [op.value], drawn + [made], feat, st)
    ensures st.rows == old(st.rows)
    ensures Drawn(made, r.pos) == PromoteAt(r.stream, old(r.pos), old(SeenOf(start, drawn, st)))
    ensures |st.binds| == |old(st.binds)| + Binds(made) && st.nextRowKey == old(st.nextRowKey) + Rows(made)
  {
    hide PromoteAt;
    hide Tracks, MeaningfulLog, Meaningful, AllPermitted, DistinctIds, DistinctFields, ReplayStep, ReplayOps;
    hide KeySet, Emitted, ReadsAs, Shares, OpReads, ReadsFrom, Promotable, WriteThrough, Retyped, RetagCell, ViewOf, Owned;
    SnapReads(ops, Emitted(start, drawn));
    ghost var g, view, schema, snap := ReplayOps(start, drawn), ViewOf(st.rows), st.schema, SnapOf(ops);
    TracksOlder(schema, view, st.binds, st.nextRowKey, g);
    ViewKeys(st.rows);
    var promotion := GenPromote(r, st, g);
    if promotion.None? {
      return None, ObserveOp("latest", "");
    }
    made := promotion.value;
    op := Some(Fixed(promotion.value));
    PromoteFound(g, made);
    ghost var name := NameOf(schema, made.fieldId);
    ReadsKept(snap, ops, Emitted(start, drawn));
    PromoteShared(st, promotion.value.fieldId, promotion.value.to, ops, Emitted(start, drawn), g.keys);
    hide NameOf;
    PromoteTracks(schema, view, ViewOf(st.rows), st.binds, st.nextRowKey, g, made.fieldId, made.to);
    SharesFixed(ops, st.rows, g.keys, made);
    FixedReads(made);
    ReadsSnoc(ops, WriteThrough(Emitted(start, drawn), st.rows.Keys, name, made.to), Fixed(made), made);
    Logged(start, drawn, made, feat);
    EmittedSnoc(start, drawn, made);
    DeleteKeepsKeys(g, made);
    PromotedSchema(g, made);
  }

  lemma ViewKeys(rows: map<string, Row>)
    ensures ViewOf(rows).Keys == rows.Keys
  {
  }

  /** `applyPromote` on a state whose rows the log shares: the log reads the new tags too. */
  method PromoteShared(st: State, id: int, to: string, ghost ops: seq<LoggedOp>, ghost out: seq<Op>, ghost keys: set<string>)
    requires Owned(st.rows) && Shares(ops, st.rows, keys) && ReadsAs(ops, out) && FieldIndex(st.schema, id).Some?
    modifies st`schema, st`ordinal, FootprintOf(st.rows)
    ensures st.schema == Retyped(old(st.schema), id, to)
    ensures ViewOf(st.rows).Keys == old(ViewOf(st.rows)).Keys
    ensures forall k :: k in old(ViewOf(st.rows)) ==>
              ViewOf(st.rows)[k] == RetagCell(old(ViewOf(st.rows))[k], NameOf(old(st.schema), id), to)
    ensures ReadsAs(ops, WriteThrough(out, st.rows.Keys, NameOf(old(st.schema), id), to))
  {
    hide Shares, ReadsAs, ReadsFrom, WriteThrough, Retyped, RetagCell;
    SnapReads(ops, out);
    ghost var snap, view, name := SnapOf(ops), ViewOf(st.rows), NameOf(st.schema, id);
    assert forall k :: k in st.rows && st.rows[k].cells in snap ==> view[k] == GenRow(k, snap[st.rows[k].cells]);
    st.ApplyPromote(id, to);
    RetaggedView(st.rows, view, name, to);
    WroteThrough(snap, ops, st.rows, keys, out, name, to);
  }

  lemma RetaggedView(rows: map<string, Row>, view: map<string, GenRow>, name: string, to: string)
    requires rows.Keys == view.Keys && forall k :: k in rows ==> Read(rows[k]) == RetagCell(view[k], name, to)
    ensures ViewOf(rows).Keys == view.Keys && forall k :: k in view ==> ViewOf(rows)[k] == RetagCell(view[k], name, to)
  {
  }

  lemma PromotedSchema(g: Replayed, op: Op)
    requires op.PromoteOp?
    ensures ReplayStep(g, op).schema == Retyped(g.schema, op.fieldId, op.to)
  {
  }

  method ObserveTurn(r: Rand, st: State, feat: Features, ghost start: seq<GenField>, ghost ops: seq<LoggedOp>, ghost drawn: seq<Op>)
    returns (op: LoggedOp, ghost made: Op)
    requires Aligned(start, ops, drawn, feat, st)
    modifies r, st`binds
    ensures !made.AppendOp? && op == Fixed(made)
    ensures Aligned(start, ops + [op], drawn + [made], feat, st)
    ensures Drawn(made, r.pos) == ObserveAt(r.stream, old(r.pos), old(SeenOf(start, drawn, st)))
    ensures |st.binds| == |old(st.binds)| + Binds(made) && st.nextRowKey == old(st.nextRowKey) + Rows(made)
  {
    hide ObserveAt;
    hide Tracks, MeaningfulLog, Meaningful, AllPermitted, DistinctIds, ReplayStep, ReplayOps;
    hide Emitted, ReadsAs, Shares, OpReads, Owned, ReadsFrom;
    SnapReads(ops, Emitted(start, drawn));
    ghost var g, snap := ReplayOps(start, drawn), SnapOf(ops);
    var observe := GenObserve(r, st, g);
    ReadsKept(snap, ops, Emitted(start, drawn));
    made := observe;
    op := Fixed(observe);
    SharesFixed(ops, st.rows, g.keys, made);
    FixedReads(made);
    ReadsSnoc(ops, Emitted(start, drawn), op, made);
    Logged(start, drawn, made, feat);
    EmittedSnoc(start, drawn, made);
    DeleteKeepsKeys(g, made);
  }

  /**
   One turn of the loop in `Generate`. It always yields an op: the source's two retries, for a
   delete or a promote that came to nothing, are never taken.
   */
  method NextOp(r: Rand, st: State, feat: Features, ghost start: seq<GenField>, ghost ops: seq<LoggedOp>, ghost drawn: seq<Op>)
    returns (op: Option<LoggedOp>, ghost made: Op)
    requires Aligned(start, ops, drawn, feat, st)
    modifies r, st, FootprintOf(st.rows)
    ensures op.Some? && (op.value.Fixed? ==> !op.value.op.AppendOp?)
    ensures Aligned(start, ops + [op.value], drawn + [made], feat, st)
    ensures forall c :: c in FootprintOf(st.rows) && c !in old(FootprintOf(st.rows)) ==> fresh(c)
    ensures Drawn(made, r.pos) == OpAt(r.stream, old(r.pos), old(SeenOf(start, drawn, st)), feat)
    ensures |st.binds| == |old(st.binds)| + Binds(made) && st.nextRowKey == old(st.nextRowKey) + Rows(made)
  {
    hide Tracks, MeaningfulLog, AllPermitted, DistinctIds, Shares, Owned, Emitted, ReplayOps, Promotable;
    hide AppendAt, DeleteAt, PromoteAt, ObserveAt, Choices;
    AlignedSees(start, ops, drawn, feat, st);
    ghost var v := SeenOf(start, drawn, st);
    var choice := PickOp(r, st, feat, v);
    AlignedStays(start, ops, drawn, feat, st);
    hide Aligned;
    match choice {
      case ChooseAppend =>
        var appended: LoggedOp;
        appended, made := AppendTurn(r, st, feat, start, ops, drawn);
        op := Some(appended);
      case ChooseDelete =>
        op, made := DeleteTurn(r, st, feat, start, ops, drawn);
      case ChoosePromote =>
        op, made := PromoteTurn(r, st, feat, start, ops, drawn);
      case ChooseObserve =>
        var observe: LoggedOp;
        observe, made := ObserveTurn(r, st, feat, start, ops, drawn);
        op := Some(observe);
    }
  }

  /** The state has rows exactly when the replay has. */
  lemma AlignedSees(start: seq<GenField>, ops: seq<LoggedOp>, drawn: seq<Op>, feat: Features, st: State)
    requires Aligned(start, ops, drawn, feat, st)
    ensures ReplayOps(start, drawn).schema == st.schema
    ensures ReplayOps(start, drawn).live == [] <==> st.rows == map[]
  {
    var g := ReplayOps(start, drawn);
    hide MeaningfulLog, AllPermitted, DistinctIds, Shares, Owned, Emitted, ReplayOps;
    TrackedSchema(st.schema, ViewOf(st.rows), st.binds, st.nextRowKey, g);
    LiveSeen(ViewOf(st.rows), g.live);
    assert ViewOf(st.rows).Keys == st.rows.Keys;
  }

  lemma LiveSeen(rows: map<string, GenRow>, live: seq<GenRow>)
    requires TracksRows(rows, live)
    ensures live == [] <==> rows == map[]
  {
    if live != [] {
      assert live[0].rowKey in rows;
    }
    if rows != map[] {
      var k := SomeKey(rows);
      assert HasKey(live, k);
    }
  }

  lemma AlignedStays(start: seq<GenField>, ops: seq<LoggedOp>, drawn: seq<Op>, feat: Features, st: State)
    requires Aligned(start, ops, drawn, feat, st)
    ensures Aligned(start, ops, drawn, feat, st)
  {
  }

  /** The held ops start with an append, as the drawn ones do, and every append holds its rows. */
  ghost predicate Held(ops: seq<LoggedOp>, drawn: seq<Op>) {
    && |ops| == |drawn| && drawn != [] && drawn[0].AppendOp?
    && forall i :: 0 <= i < |ops| && ops[i].Fixed? ==> !ops[i].op.AppendOp?
  }

  lemma HeldSnoc(ops: seq<LoggedOp>, drawn: seq<Op>, op: LoggedOp, made: Op)
    requires Held(ops, drawn) && (op.Fixed? ==> !op.op.AppendOp?)
    ensures Held(ops + [op], drawn + [made])
  {
  }

  lemma NothingSeen(start: seq<GenField>, first: nat)
    ensures SeenAfter(start, first, []) == Seen(ReplayOps(start, []), 0, first)
  {
  }

  lemma SeenSnoc(start: seq<GenField>, first: nat, ops: seq<Op>, op: Op)
    ensures var v := SeenAfter(start, first, ops);
            SeenAfter(start, first, ops + [op]) == Seen(ReplayOps(start, ops + [op]), v.binds + Binds(op), v.nextRow + Rows(op))
  {
    hide ReplayOps;
    assert (ops + [op])[..|ops|] == ops;
  }

  /** The first append of `Generate`. */
  method FirstAppend(r: Rand, st: State, feat: Features) returns (ops: seq<LoggedOp>, ghost drawn: seq<Op>)
    requires Empty(st)
    modifies r, st
    ensures |ops| == 1 && Held(ops, drawn)
    ensures Aligned(old(st.schema), ops, drawn, feat, st)
    ensures forall c :: c in FootprintOf(st.rows) ==> fresh(c)
    ensures Drawn(drawn, r.pos) == OpsAt(r.stream, old(r.pos), old(st.schema), old(st.nextRowKey), feat, 1)
    ensures SeenOf(old(st.schema), drawn, st) == SeenAfter(old(st.schema), old(st.nextRowKey), drawn)
  {
    ghost var start := st.schema;
    StartAligned(feat, st);
    assert FootprintOf(st.rows) == {};
    hide Aligned, FootprintOf, AppendAt, ReplayOps, SeenAfter, OpAt;
    ghost var pos, next := r.pos, st.nextRowKey;
    NothingSeen(start, next);
    assert SeenOf(start, [], st) == SeenAfter(start, next, []);
    hide Empty;
    var first, made := AppendTurn(r, st, feat, start, [], []);
    ops, drawn := [] + [first], [] + [made];
    SeenSnoc(start, next, [], made);
    assert OpsAt(r.stream, pos, start, next, feat, 0) == Drawn([], pos);
  }

  /** The first append and the loop of `Generate`, over any state that starts empty and has an id column. */
  method DrawOps(r: Rand, st: State, count: int, feat: Features) returns (ops: seq<LoggedOp>, ghost drawn: seq<Op>)
    requires Empty(st)
    modifies r, st
    ensures |ops| == Max(count, 1) && Held(ops, drawn)
    ensures Aligned(old(st.schema), ops, drawn, feat, st)
    ensures drawn == OpsAt(r.stream, old(r.pos), old(st.schema), old(st.nextRowKey), feat, Max(count, 1)).value
  {
    hide Aligned, Empty, FootprintOf, Held, OpAt, AppendAt, SeenAfter, ReplayOps;
    ops, drawn := FirstAppend(r, st, feat);
    while |ops| < count
      invariant 0 < |ops| <= Max(count, 1) && Held(ops, drawn)
      invariant Aligned(old(st.schema), ops, drawn, feat, st)
      invariant forall c :: c in FootprintOf(st.rows) ==> fresh(c)
      invariant Drawn(drawn, r.pos) == OpsAt(r.stream, old(r.pos), old(st.schema), old(st.nextRowKey), feat, |ops|)
      invariant SeenOf(old(st.schema), drawn, st) == SeenAfter(old(st.schema), old(st.nextRowKey), drawn)
    {
      var op, next := NextOp(r, st, feat, old(st.schema), ops, drawn);
      HeldSnoc(ops, drawn, op.value, next);
      SeenSnoc(old(st.schema), old(st.nextRowKey), drawn, next);
      ops, drawn := ops + [op.value], drawn + [next];
    }
  }

  /**
   `Generate` from any state that starts empty and has an id column. `drawn` are the ops as each was
   drawn; the log shows them as the promotions left them.
   */
  method Fill(r: Rand, st: State, version: nat, count: int, feat: Features) returns (log: OpLog, ghost drawn: seq<Op>)
    requires Empty(st)
    modifies r, st
    ensures log.schema == old(st.schema) && log.version == version
    ensures SoundLog(log, drawn, count, feat)
    ensures drawn ==
            OpsAt(r.stream, old(r.pos), old(st.schema), old(st.nextRowKey), feat, Max(count, 1)).value
            + [ObserveOp("latest", "")]
  {
    hide Aligned, Empty, SoundLog, Filled, ReadsAs, MeaningfulLog, AllPermitted, Tracks, Emitted, ReplayOps, TypesOf, OpsAt;
    var seedSchema := st.schema;
    var ops: seq<LoggedOp>;
    ops, drawn := DrawOps(r, st, count, feat);
    ghost var view := ViewOf(st.rows);
    AlignedParts(seedSchema, ops, drawn, feat, st);
    var shown := ReadLogAs(ops, drawn, Emitted(seedSchema, drawn));
    var keys := st.LiveRowKeys();
    FilledLog(seedSchema, drawn, feat, st.schema, view, st.binds, st.nextRowKey, keys);
    EmittedSnoc(seedSchema, drawn, ObserveOp("latest", ""));
    log := OpLog(version, seedSchema, shown + [ObserveOp("latest", "")], keys, TypesOf(st.schema));
    drawn := drawn + [ObserveOp("latest", "")];
    FilledSound(log, drawn, count, feat);
  }

  /** The log as it reads now, which `out` says. */
  method ReadLogAs(ops: seq<LoggedOp>, ghost drawn: seq<Op>, ghost out: seq<Op>) returns (shown: seq<Op>)
    requires Held(ops, drawn) && ReadsAs(ops, out)
    ensures shown == out
  {
    SnapReads(ops, out);
    ghost var snap := SnapOf(ops);
    hide ReadsAs;
    shown := ReadLog(ops);
    ReadsKept(snap, ops, out);
    ReadsUnique(ops, shown, out);
  }

  lemma AlignedParts(start: seq<GenField>, ops: seq<LoggedOp>, drawn: seq<Op>, feat: Features, st: State)
    requires Aligned(start, ops, drawn, feat, st)
    ensures MeaningfulLog(start, drawn) && AllPermitted(drawn, feat)
    ensures Tracks(st.schema, ViewOf(st.rows), st.binds, st.nextRowKey, ReplayOps(start, drawn))
    ensures ReadsAs(ops, Emitted(start, drawn))
  {
  }

  lemma StartAligned(feat: Features, st: State)
    requires Empty(st)
    ensures Aligned(st.schema, [], [], feat, st)
  {
    EmptyTracks(st.schema, st.nextRowKey);
    assert ViewOf(st.rows) == map[];
  }

  /** The promises of a log, read off the drawn ops and the state that tracks them. */
  ghost predicate Filled(start: seq<GenField>, all: seq<Op>, feat: Features, keys: seq<string>, types: map<string, string>) {
    var log := Emitted(start, all);
    && MeaningfulLog(start, all) && |log| == |all| && AllPermitted(log, feat)
    && (all != [] && all[0].AppendOp? ==> log[0].AppendOp?)
    && keys == SortStrings(Keys(ReplayOps(start, log).live))
    && types == TypesOf(ReplayOps(start, log).schema)
  }

  lemma FilledLog(
    start: seq<GenField>, drawn: seq<Op>, feat: Features, schema: seq<GenField>, view: map<string, GenRow>,
    binds: seq<string>, next: nat, keys: seq<string>)
    requires MeaningfulLog(start, drawn) && AllPermitted(drawn, feat)
    requires Tracks(schema, view, binds, next, ReplayOps(start, drawn))
    requires Distinct(keys) && SortedBy(Self, keys) && forall k :: k in keys <==> k in view
    ensures Filled(start, drawn + [ObserveOp("latest", "")], feat, keys, TypesOf(schema))
  {
    hide MeaningfulLog, Tracks, Emitted, ReplayOps, TypesOf, SortedBy, SameRows, Distinct;
    var all := drawn + [ObserveOp("latest", "")];
    LastObserve(start, drawn, feat);
    EmittedSameButTags(start, all);
    TagsDoNotReplay(start, Emitted(start, all), all);
    SameKeys(ReplayOps(start, Emitted(start, all)).live, ReplayOps(start, all).live);
    FinalKeys(schema, view, binds, next, ReplayOps(start, drawn), keys);
    StillPermitted(Emitted(start, all), all, feat);
    assert SameButTags(Emitted(start, all)[0], all[0]);
  }

  lemma FilledSound(log: OpLog, all: seq<Op>, count: int, feat: Features)
    requires Filled(log.schema, all, feat, log.finalRowKeys, log.finalTypes) && log.ops == Emitted(log.schema, all)
    requires |all| == Max(count, 1) + 1 && all[0].AppendOp? && log.ops[|log.ops| - 1] == ObserveOp("latest", "")
    ensures SoundLog(log, all, count, feat)
  {
  }

  lemma StillPermitted(a: seq<Op>, b: seq<Op>, feat: Features)
    requires SameButTagsAll(a, b) && AllPermitted(b, feat)
    ensures AllPermitted(a, feat)
  {
    forall i | 0 <= i < |a| ensures Permitted(a[i], feat) {
      assert SameButTags(a[i], b[i]) && Permitted(b[i], feat);
    }
  }

  lemma LastObserve(start: seq<GenField>, ops: seq<Op>, feat: Features)
    requires MeaningfulLog(start, ops) && AllPermitted(ops, feat)
    ensures MeaningfulLog(start, ops + [ObserveOp("latest", "")]) && AllPermitted(ops + [ObserveOp("latest", "")], feat)
    ensures ReplayOps(start, ops + [ObserveOp("latest", "")]) == ReplayOps(start, ops)
  {
    Logged(start, ops, ObserveOp("latest", ""), feat);
  }

  lemma FinalKeys(
    schema: seq<GenField>, rows: map<string, GenRow>, binds: seq<string>, next: nat, g: Replayed, keys: seq<string>)
    requires Tracks(schema, rows, binds, next, g)
    requires Distinct(keys) && SortedBy(Self, keys) && forall k :: k in keys <==> k in rows
    ensures schema == g.schema && keys == SortStrings(Keys(g.live))
  {
    SortedKeysUnique(rows, g.live, keys);
  }

  /** The types only some logs use, none of which can be promoted. */
  const WIDE_TYPES := ["boolean", "fixed[4]", "decimal(9,2)", "uuid"]

  /** The schemas a generated log can start from. */
  predicate SeedSchema(schema: seq<GenField>, wide: bool) {
    && 2 <= |schema| <= (if wide then 3 else 2)
    && schema[0] == GenField(1, "id", "long", true) && schema[1] == GenField(2, "val", "string", false)
    && (|schema| == 3 ==>
          schema[2].ty in {"boolean", "fixed[4]", "decimal(9,2)", "uuid"}
          && schema[2] == GenField(3, "w", schema[2].ty, false))
  }

  lemma {:induction false} NothingPromotable(schema: seq<GenField>)
    requires forall i :: 0 <= i < |schema| ==> LegalTargets(schema[i].ty) == []
    ensures Promotable(schema) == 0
  {
    if schema != [] {
      NothingPromotable(schema[1..]);
    }
  }

  lemma SeedHasIdColumn(schema: seq<GenField>, wide: bool)
    requires SeedSchema(schema, wide)
    ensures HasIdColumn(schema) && DistinctIds(schema) && Promotable(schema) == 0
  {
    assert FieldIndex(schema, 1) == Some(0);
    NothingPromotable(schema);
  }

  /** `Generate`: the log is sound, and from these seed schemas it never promotes. */
  method Generate(stream: Stream, version: nat, count: int, feat: Features) returns (log: OpLog)
    ensures log == LogOf(stream, version, count, feat)
    ensures SeedSchema(log.schema, feat.wideTypes) && log.version == version
    ensures SoundLog(log, log.ops, count, feat)
    ensures Promotes(log.ops) == 0
  {
    hide SoundLog, OpsAt, Emitted, ReplayOps;
    ghost var drawn: seq<Op>;
    var r := new Rand(stream);
    var st := new State();
    if feat.wideTypes {
      var widen := r.Intn(2);
      if widen == 0 {
        var pick := r.Intn(4);
        st.schema := st.schema + [GenField(st.nextFieldId, "w", WIDE_TYPES[pick], false)];
        st.nextFieldId := st.nextFieldId + 1;
      }
    }
    SeedHasIdColumn(st.schema, feat.wideTypes);
    assert SchemaAt(stream, feat.wideTypes) == Drawn(st.schema, r.pos);
    log, drawn := Fill(r, st, version, count, feat);
    SoundIsLogOf(stream, log, drawn, count, feat);
    NeverPromotes(log, drawn, count, feat);
  }

  /** Nothing in a sound log is left open by the ops drawn. */
  lemma SoundIsLogOf(stream: Stream, log: OpLog, drawn: seq<Op>, count: int, feat: Features)
    requires SoundLog(log, drawn, count, feat)
    requires var start := SchemaAt(stream, feat.wideTypes);
             && log.schema == start.value
             && drawn == OpsAt(stream, start.pos, start.value, 1, feat, Max(count, 1)).value + [ObserveOp("latest", "")]
    ensures log == LogOf(stream, log.version, count, feat)
  {
    hide MeaningfulLog, AllPermitted, OpsAt, Emitted, ReplayOps, TypesOf, SchemaAt;
  }

  /** Without a promotable column nothing is ever written through: the log is the log as drawn. */
  lemma NeverPromotes(log: OpLog, drawn: seq<Op>, count: int, feat: Features)
    requires SoundLog(log, drawn, count, feat) && Promotable(log.schema) == 0
    ensures log.ops == drawn && Promotes(log.ops) == 0
  {
    PromotionAccounting(log.schema, drawn);
    NothingWritten(log.schema, drawn);
  }
}
