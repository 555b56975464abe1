/**
 From columns to rows: `arrow_decode.go` walks column by column over each column's own chunks,
 `arrow_decode.rs` batch by batch. `decode` stands for the cell decoders: a null cell decodes to
 None, an unsupported one to an error.
 */
module Transpose {
  import opened Wrappers
  import opened Text
  import opened Seqs
  import opened Values
  import opened Emit

  datatype ScanField = ScanField(name: string, ty: string)

  datatype ScanError<E> = ColumnCount | NoLabel(name: string) | CellError(error: E)

  datatype Scan<N> = Scan(icebergSchema: seq<SchemaField>, rows: seq<map<string, N>>)

  /** A record batch: its columns all have `numRows` cells. */
  datatype Batch<C> = Batch(columns: seq<seq<C>>, numRows: nat)

  type Decode<!C, N, E> = (C, string) -> Result<Option<N>, E>

  function Flat<C>(chunks: seq<seq<C>>): seq<C> {
    if chunks == [] then [] else Flat(chunks[..|chunks| - 1]) + chunks[|chunks| - 1]
  }

  function Key(labels: Labels, name: string): string {
    if name in labels then Itoa(labels[name]) else ""
  }

  // ----- the logical table

  /** Columns of equal length. */
  predicate Rectangular<C>(columns: seq<seq<C>>, n: nat) {
    forall c :: 0 <= c < |columns| ==> |columns[c]| == n
  }

  predicate AllLabelled(fields: seq<ScanField>, labels: Labels) {
    forall c :: 0 <= c < |fields| ==> fields[c].name in labels
  }

  /** Every cell of the first `n` rows decodes. */
  predicate AllDecode<C, N, E>(columns: seq<seq<C>>, n: nat, fields: seq<ScanField>, decode: Decode<C, N, E>)
    requires Rectangular(columns, n) && |columns| == |fields|
  {
    forall c, r :: 0 <= c < |columns| && 0 <= r < n ==> decode(columns[c][r], fields[c].ty).Ok?
  }

  /** Row `r` of the first `k` columns: a cell per non-null value, a null cell absent. */
  function RowOf<C, N, E>(
    columns: seq<seq<C>>, n: nat, fields: seq<ScanField>, labels: Labels, decode: Decode<C, N, E>, k: nat, r: nat)
    : map<string, N>
    requires Rectangular(columns, n) && |columns| == |fields| && k <= |columns| && r < n
  {
    if k == 0 then map[]
    else
      var rest := RowOf(columns, n, fields, labels, decode, k - 1, r);
      var cell := decode(columns[k - 1][r], fields[k - 1].ty);
      if cell.Ok? && cell.value.Some? then rest[Key(labels, fields[k - 1].name) := cell.value.value] else rest
  }

  /** These rows are the transposition of these columns. */
  ghost predicate Transposes<C, N, E>(
    rows: seq<map<string, N>>, columns: seq<seq<C>>, n: nat, fields: seq<ScanField>, labels: Labels,
    decode: Decode<C, N, E>)
    requires Rectangular(columns, n) && |columns| == |fields|
  {
    |rows| == n && forall r :: 0 <= r < n ==> rows[r] == RowOf(columns, n, fields, labels, decode, |fields|, r)
  }

  predicate SchemaShown(schema: seq<SchemaField>, fields: seq<ScanField>, labels: Labels) {
    |schema| == |fields| &&
    forall c :: 0 <= c < |fields| ==>
      fields[c].name in labels && schema[c] == SchemaField(labels[fields[c].name], fields[c].name, fields[c].ty)
  }

  predicate LabelsDistinct(fields: seq<ScanField>, labels: Labels) {
    forall c, d :: 0 <= c < d < |fields| ==> Key(labels, fields[c].name) != Key(labels, fields[d].name)
  }

  /** With distinct labels cell (r, c) is shown as it decodes, and is absent exactly when null. */
  lemma {:induction false} CellShown<C, N, E>(
    columns: seq<seq<C>>, n: nat, fields: seq<ScanField>, labels: Labels, decode: Decode<C, N, E>, k: nat, r: nat, c: nat)
    requires Rectangular(columns, n) && |columns| == |fields| && k <= |columns| && r < n && c < k
    requires LabelsDistinct(fields, labels) && AllDecode(columns, n, fields, decode)
    ensures var row, key := RowOf(columns, n, fields, labels, decode, k, r), Key(labels, fields[c].name);
            match decode(columns[c][r], fields[c].ty).value
            case Some(node) => key in row && row[key] == node
            case None => key !in row
  {
    hide Key;
    if c < k - 1 {
      assert Key(labels, fields[c].name) != Key(labels, fields[k - 1].name);
      CellShown(columns, n, fields, labels, decode, k - 1, r, c);
    } else {
      KeysBefore(columns, n, fields, labels, decode, c, r);
    }
  }

  lemma {:induction false} KeysBefore<C, N, E>(
    columns: seq<seq<C>>, n: nat, fields: seq<ScanField>, labels: Labels, decode: Decode<C, N, E>, k: nat, r: nat)
    requires Rectangular(columns, n) && |columns| == |fields| && k <= |columns| && r < n
    ensures forall key :: key in RowOf(columns, n, fields, labels, decode, k, r) ==>
              exists d :: 0 <= d < k && Key(labels, fields[d].name) == key
  {
    if k > 0 {
      KeysBefore(columns, n, fields, labels, decode, k - 1, r);
    }
  }

  // ----- labels

  /** The scan shows the columns of this schema, in order. */
  predicate ShowsColumns(fields: seq<ScanField>, s: Schema) {
    |fields| == |s| && forall c :: 0 <= c < |fields| ==> fields[c].name == s[c].name
  }

  /** Columns with distinct names never share a positional label. */
  lemma PositionsNeverCollide(fields: seq<ScanField>, s: Schema)
    requires ShowsColumns(fields, s) && DistinctNames(s)
    ensures AllLabelled(fields, PositionalLabels(s)) && LabelsDistinct(fields, PositionalLabels(s))
  {
    forall c | 0 <= c < |fields| ensures fields[c].name in PositionalLabels(s) {
      PositionalLabelsAt(s, c);
    }
    forall c, d | 0 <= c < d < |fields|
      ensures Key(PositionalLabels(s), fields[c].name) != Key(PositionalLabels(s), fields[d].name)
    {
      PositionalLabelsInjective(s, c, d);
      ItoaInjective(PositionalLabels(s)[s[c].name], PositionalLabels(s)[s[d].name]);
    }
  }

  // ----- the Go decoder

  /** The iceberg-schema of an observation, one entry per column. */
  method ShowSchema<E>(fields: seq<ScanField>, labels: Labels) returns (r: Result<seq<SchemaField>, ScanError<E>>)
    ensures r.Ok? <==> AllLabelled(fields, labels)
    ensures r.Ok? ==> SchemaShown(r.value, fields, labels)
  {
    var schema: seq<SchemaField> := [];
    var c := 0;
    while c < |fields|
      invariant 0 <= c <= |fields|
      invariant SchemaShown(schema, fields[..c], labels)
    {
      if fields[c].name !in labels {
        return Err(NoLabel(fields[c].name));
      }
      schema := schema + [SchemaField(labels[fields[c].name], fields[c].name, fields[c].ty)];
      assert fields[..c + 1] == fields[..c] + [fields[c]];
      c := c + 1;
    }
    assert fields[..c] == fields;
    r := Ok(schema);
  }

  /** The row a column pass has built so far: `k` columns, and one more above row `done`. */
  ghost predicate Filled<C, N, E>(
    rows: array<map<string, N>>, columns: seq<seq<C>>, n: nat, fields: seq<ScanField>, labels: Labels,
    decode: Decode<C, N, E>, k: nat, done: nat)
    requires Rectangular(columns, n) && |columns| == |fields| && k <= |columns| && done <= n
    requires done > 0 ==> k < |columns|
    reads rows
  {
    rows.Length == n &&
    forall r :: 0 <= r < n ==>
      rows[r] == RowOf(columns, n, fields, labels, decode, if r < done then k + 1 else k, r)
  }

  ghost predicate ColumnDecodes<C, N, E>(columns: seq<seq<C>>, c: nat, done: nat, ty: string, decode: Decode<C, N, E>)
    requires c < |columns| && done <= |columns[c]|
  {
    forall r :: 0 <= r < done ==> decode(columns[c][r], ty).Ok?
  }

  lemma ColumnsDecode<C, N, E>(columns: seq<seq<C>>, n: nat, fields: seq<ScanField>, decode: Decode<C, N, E>)
    requires Rectangular(columns, n) && |columns| == |fields|
    ensures AllDecode(columns, n, fields, decode) <==>
            forall c :: 0 <= c < |columns| ==> ColumnDecodes(columns, c, n, fields[c].ty, decode)
  {
  }

  lemma NothingFilled<C, N, E>(
    rows: array<map<string, N>>, columns: seq<seq<C>>, fields: seq<ScanField>, labels: Labels, decode: Decode<C, N, E>)
    requires Rectangular(columns, rows.Length) && |columns| == |fields|
    requires forall r :: 0 <= r < rows.Length ==> rows[r] == map[]
    ensures Filled(rows, columns, rows.Length, fields, labels, decode, 0, 0)
  {
  }

  lemma AllFilled<C, N, E>(
    rows: array<map<string, N>>, columns: seq<seq<C>>, fields: seq<ScanField>, labels: Labels, decode: Decode<C, N, E>)
    requires Rectangular(columns, rows.Length) && |columns| == |fields|
    requires Filled(rows, columns, rows.Length, fields, labels, decode, |fields|, 0)
    ensures Transposes(rows[..], columns, rows.Length, fields, labels, decode)
  {
  }

  lemma RowOfNext<C, N, E>(
    columns: seq<seq<C>>, n: nat, fields: seq<ScanField>, labels: Labels, decode: Decode<C, N, E>, c: nat, r: nat)
    requires Rectangular(columns, n) && |columns| == |fields| && c < |columns| && r < n
    requires decode(columns[c][r], fields[c].ty).Ok?
    ensures var rest := RowOf(columns, n, fields, labels, decode, c, r);
            var cell := decode(columns[c][r], fields[c].ty).value;
            RowOf(columns, n, fields, labels, decode, c + 1, r) ==
              if cell.Some? then rest[Key(labels, fields[c].name) := cell.value] else rest
  {
  }

  /** One chunk of one column, from running row `base`. */
  method FillChunk<C, N, E>(
    rows: array<map<string, N>>, ghost columns: seq<seq<C>>, fields: seq<ScanField>, labels: Labels,
    decode: Decode<C, N, E>, c: nat, chunk: seq<C>, base: nat) returns (err: Option<E>)
    requires Rectangular(columns, rows.Length) && |columns| == |fields| && c < |columns|
    requires base + |chunk| <= rows.Length && columns[c][base..base + |chunk|] == chunk
    requires Filled(rows, columns, rows.Length, fields, labels, decode, c, base)
    requires ColumnDecodes(columns, c, base, fields[c].ty, decode)
    modifies rows
    ensures err.None? <==> ColumnDecodes(columns, c, base + |chunk|, fields[c].ty, decode)
    ensures err.None? ==> Filled(rows, columns, rows.Length, fields, labels, decode, c, base + |chunk|)
  {
    hide RowOf, Key;
    var i := 0;
    while i < |chunk|
      invariant 0 <= i <= |chunk|
      invariant Filled(rows, columns, rows.Length, fields, labels, decode, c, base + i)
      invariant ColumnDecodes(columns, c, base + i, fields[c].ty, decode)
    {
      assert columns[c][base + i] == chunk[i];
      var cell := decode(chunk[i], fields[c].ty);
      if cell.Err? {
        return Some(cell.error);
      }
      RowOfNext(columns, rows.Length, fields, labels, decode, c, base + i);
      if cell.value.Some? {
        rows[base + i] := rows[base + i][Key(labels, fields[c].name) := cell.value.value];
      }
      i := i + 1;
    }
    err := None;
  }

  lemma {:induction false} FlatSlice<C>(chunks: seq<seq<C>>, j: nat)
    requires j < |chunks|
    ensures |Flat(chunks[..j])| + |chunks[j]| == |Flat(chunks[..j + 1])| <= |Flat(chunks)|
    ensures Flat(chunks)[|Flat(chunks[..j])|..|Flat(chunks[..j])| + |chunks[j]|] == chunks[j]
    decreases |chunks| - j
  {
    assert chunks[..j + 1][..j] == chunks[..j];
    if j == |chunks| - 1 {
      assert chunks[..j + 1] == chunks;
    } else {
      FlatPrefix(chunks, j + 1);
      var f := Flat(chunks[..j + 1]);
      assert Flat(chunks)[..|f|] == f;
      var a := |Flat(chunks[..j])|;
      assert f[a..a + |chunks[j]|] == chunks[j];
      assert Flat(chunks)[a..a + |chunks[j]|] == Flat(chunks)[..|f|][a..a + |chunks[j]|];
    }
  }

  lemma {:induction false} FlatPrefix<C>(chunks: seq<seq<C>>, j: nat)
    requires j <= |chunks|
    ensures Flat(chunks[..j]) <= Flat(chunks)
    decreases |chunks|
  {
    if j == |chunks| {
      assert chunks[..j] == chunks;
    } else {
      FlatPrefix(chunks[..|chunks| - 1], j);
      assert chunks[..|chunks| - 1][..j] == chunks[..j];
    }
  }

  /** All chunks of one column, with the running `rowBase`. */
  method FillColumn<C, N, E>(
    rows: array<map<string, N>>, ghost columns: seq<seq<C>>, fields: seq<ScanField>, labels: Labels,
    decode: Decode<C, N, E>, c: nat, chunks: seq<seq<C>>) returns (err: Option<E>)
    requires Rectangular(columns, rows.Length) && |columns| == |fields| && c < |columns|
    requires columns[c] == Flat(chunks)
    requires Filled(rows, columns, rows.Length, fields, labels, decode, c, 0)
    modifies rows
    ensures err.None? <==> ColumnDecodes(columns, c, rows.Length, fields[c].ty, decode)
    ensures err.None? ==> Filled(rows, columns, rows.Length, fields, labels, decode, c + 1, 0)
  {
    var rowBase, j := 0, 0;
    while j < |chunks|
      invariant 0 <= j <= |chunks| && rowBase == |Flat(chunks[..j])| <= rows.Length
      invariant Filled(rows, columns, rows.Length, fields, labels, decode, c, rowBase)
      invariant ColumnDecodes(columns, c, rowBase, fields[c].ty, decode)
    {
      FlatSlice(chunks, j);
      err := FillChunk(rows, columns, fields, labels, decode, c, chunks[j], rowBase);
      if err.Some? {
        return;
      }
      rowBase := rowBase + |chunks[j]|;
      j := j + 1;
    }
    assert chunks[..j] == chunks;
    err := None;
  }

  /** The column loop of `decodeScan`. */
  method FillColumns<C, N, E>(
    rows: array<map<string, N>>, ghost columns: seq<seq<C>>, chunked: seq<seq<seq<C>>>, fields: seq<ScanField>,
    labels: Labels, decode: Decode<C, N, E>) returns (err: Option<E>)
    requires Rectangular(columns, rows.Length) && |columns| == |chunked| == |fields|
    requires forall c :: 0 <= c < |columns| ==> columns[c] == Flat(chunked[c])
    requires Filled(rows, columns, rows.Length, fields, labels, decode, 0, 0)
    modifies rows
    ensures err.None? <==> AllDecode(columns, rows.Length, fields, decode)
    ensures err.None? ==> Transposes(rows[..], columns, rows.Length, fields, labels, decode)
  {
    ColumnsDecode(columns, rows.Length, fields, decode);
    hide ColumnDecodes, AllDecode, Filled, Transposes, Flat;
    var c := 0;
    while c < |chunked|
      invariant 0 <= c <= |chunked|
      invariant Filled(rows, columns, rows.Length, fields, labels, decode, c, 0)
      invariant forall d :: 0 <= d < c ==> ColumnDecodes(columns, d, rows.Length, fields[d].ty, decode)
    {
      err := FillColumn(rows, columns, fields, labels, decode, c, chunked[c]);
      if err.Some? {
        return;
      }
      c := c + 1;
    }
    AllFilled(rows, columns, fields, labels, decode);
    err := None;
  }

  /** `decodeScan`: never out of range, and the rows are the transposition, whatever the chunking. */
  method DecodeScanGo<C, N, E>(
    chunked: seq<seq<seq<C>>>, numRows: nat, fields: seq<ScanField>, labels: Labels, decode: Decode<C, N, E>)
    returns (r: Result<Scan<N>, ScanError<E>>)
    requires Rectangular(Map(Flatten(), chunked), numRows)
    ensures r.Ok? <==>
              && |chunked| == |fields| && AllLabelled(fields, labels)
              && AllDecode(Map(Flatten(), chunked), numRows, fields, decode)
    ensures r.Ok? ==>
              && SchemaShown(r.value.icebergSchema, fields, labels)
              && Transposes(r.value.rows, Map(Flatten(), chunked), numRows, fields, labels, decode)
  {
    hide AllDecode, AllLabelled, Filled, Transposes, SchemaShown;
    if |chunked| != |fields| {
      return Err(ColumnCount);
    }
    var schema: Result<seq<SchemaField>, ScanError<E>> := ShowSchema(fields, labels);
    if schema.Err? {
      return Err(schema.error);
    }
    ghost var columns := Map(Flatten(), chunked);
    var rows := new map<string, N>[numRows](_ => map[]);
    NothingFilled(rows, columns, fields, labels, decode);
    var err := FillColumns(rows, columns, chunked, fields, labels, decode);
    if err.Some? {
      return Err(CellError(err.value));
    }
    r := Ok(Scan(schema.value, rows[..]));
  }

  function Flatten<C>(): seq<seq<C>> -> seq<C> {
    (chunks: seq<seq<C>>) => Flat(chunks)
  }

  // ----- the Rust decoder

  /** Column `c` of all batches, end to end. */
  function Joined<C>(batches: seq<Batch<C>>, c: nat): seq<C>
    requires forall b :: 0 <= b < |batches| ==> c < |batches[b].columns|
  {
    if batches == [] then []
    else Joined(batches[..|batches| - 1], c) + batches[|batches| - 1].columns[c]
  }

  function TotalRows<C>(batches: seq<Batch<C>>): nat {
    if batches == [] then 0 else TotalRows(batches[..|batches| - 1]) + batches[|batches| - 1].numRows
  }

  predicate WellShaped<C>(batches: seq<Batch<C>>) {
    forall b :: 0 <= b < |batches| ==> Rectangular(batches[b].columns, batches[b].numRows)
  }

  predicate AllWide<C>(batches: seq<Batch<C>>, width: nat) {
    forall b :: 0 <= b < |batches| ==> |batches[b].columns| == width
  }

  function JoinedColumns<C>(batches: seq<Batch<C>>, width: nat): (columns: seq<seq<C>>)
    requires AllWide(batches, width)
    ensures |columns| == width
    ensures forall c :: 0 <= c < width ==> columns[c] == Joined(batches, c)
  {
    seq(width, c requires 0 <= c < width => Joined(batches, c))
  }

  lemma {:induction false} JoinedLength<C>(batches: seq<Batch<C>>, width: nat, c: nat)
    requires AllWide(batches, width) && WellShaped(batches) && c < width
    ensures |Joined(batches, c)| == TotalRows(batches)
  {
    if batches != [] {
      assert AllWide(batches[..|batches| - 1], width) && WellShaped(batches[..|batches| - 1]);
      JoinedLength(batches[..|batches| - 1], width, c);
    }
  }

  lemma JoinedRectangular<C>(batches: seq<Batch<C>>, width: nat)
    requires AllWide(batches, width) && WellShaped(batches)
    ensures Rectangular(JoinedColumns(batches, width), TotalRows(batches))
  {
    forall c | 0 <= c < width ensures |Joined(batches, c)| == TotalRows(batches) {
      JoinedLength(batches, width, c);
    }
  }

  /** Rows depend only on their own cells: reading them from longer columns changes nothing. */
  lemma {:induction false} RowOfSlice<C, N, E>(
    part: seq<seq<C>>, m: nat, whole: seq<seq<C>>, n: nat, base: nat, fields: seq<ScanField>, labels: Labels,
    decode: Decode<C, N, E>, k: nat, r: nat)
    requires Rectangular(part, m) && Rectangular(whole, n) && |part| == |whole| == |fields|
    requires k <= |part| && r < m && base + m <= n
    requires forall c :: 0 <= c < |part| ==> whole[c][base..base + m] == part[c]
    ensures RowOf(part, m, fields, labels, decode, k, r) == RowOf(whole, n, fields, labels, decode, k, base + r)
  {
    if k > 0 {
      RowOfSlice(part, m, whole, n, base, fields, labels, decode, k - 1, r);
      assert whole[k - 1][base..base + m][r] == whole[k - 1][base + r];
    }
  }

  /** One batch: push empty rows, then fill them column by column, each column as a single chunk. */
  method DecodeBatch<C, N, E>(batch: Batch<C>, fields: seq<ScanField>, labels: Labels, decode: Decode<C, N, E>)
    returns (r: Result<seq<map<string, N>>, E>)
    requires Rectangular(batch.columns, batch.numRows) && |batch.columns| == |fields|
    ensures r.Ok? <==> AllDecode(batch.columns, batch.numRows, fields, decode)
    ensures r.Ok? ==> Transposes(r.value, batch.columns, batch.numRows, fields, labels, decode)
  {
    hide Key;
    var rows := new map<string, N>[batch.numRows](_ => map[]);
    var c := 0;
    while c < |fields|
      invariant 0 <= c <= |fields|
      invariant Filled(rows, batch.columns, batch.numRows, fields, labels, decode, c, 0)
      invariant forall d :: 0 <= d < c ==> ColumnDecodes(batch.columns, d, batch.numRows, fields[d].ty, decode)
    {
      var err := FillChunk(rows, batch.columns, fields, labels, decode, c, batch.columns[c], 0);
      if err.Some? {
        return Err(err.value);
      }
      c := c + 1;
    }
    r := Ok(rows[..]);
  }

  lemma JoinedStep<C>(batches: seq<Batch<C>>, b: nat, width: nat)
    requires b < |batches| && AllWide(batches[..b + 1], width) && WellShaped(batches)
    ensures AllWide(batches[..b], width) && WellShaped(batches[..b]) && WellShaped(batches[..b + 1])
    ensures Rectangular(JoinedColumns(batches[..b], width), TotalRows(batches[..b]))
    ensures Rectangular(JoinedColumns(batches[..b + 1], width), TotalRows(batches[..b + 1]))
    ensures TotalRows(batches[..b + 1]) == TotalRows(batches[..b]) + batches[b].numRows
    ensures forall c :: 0 <= c < width ==>
              JoinedColumns(batches[..b + 1], width)[c] == JoinedColumns(batches[..b], width)[c] + batches[b].columns[c]
  {
    assert batches[..b + 1][..b] == batches[..b];
    assert forall i :: 0 <= i < b ==> batches[..b][i] == batches[..b + 1][i];
    JoinedRectangular(batches[..b], width);
    JoinedRectangular(batches[..b + 1], width);
  }

  /** The rows of one more batch extend the transposition of the batches before it. */
  lemma TransposesGrow<C, N, E>(
    rows: seq<map<string, N>>, more: seq<map<string, N>>, a: seq<seq<C>>, n: nat, b: seq<seq<C>>, m: nat,
    whole: seq<seq<C>>, fields: seq<ScanField>, labels: Labels, decode: Decode<C, N, E>)
    requires Rectangular(a, n) && Rectangular(b, m) && Rectangular(whole, n + m)
    requires |a| == |b| == |whole| == |fields|
    requires forall c :: 0 <= c < |fields| ==> whole[c] == a[c] + b[c]
    requires Transposes(rows, a, n, fields, labels, decode) && Transposes(more, b, m, fields, labels, decode)
    ensures Transposes(rows + more, whole, n + m, fields, labels, decode)
  {
    forall c | 0 <= c < |fields| ensures whole[c][0..0 + n] == a[c] && whole[c][n..n + m] == b[c] {
      AppendSlices(a[c], b[c]);
    }
    hide RowOf, Rectangular;
    forall r | 0 <= r < n + m
      ensures (rows + more)[r] == RowOf(whole, n + m, fields, labels, decode, |fields|, r)
    {
      if r < n {
        RowOfSlice(a, n, whole, n + m, 0, fields, labels, decode, |fields|, r);
      } else {
        RowOfSlice(b, m, whole, n + m, n, fields, labels, decode, |fields|, r - n);
      }
    }
  }

  lemma AppendSlices<C>(a: seq<C>, b: seq<C>)
    ensures (a + b)[0..|a|] == a && (a + b)[|a|..|a| + |b|] == b
  {
  }

  lemma AllDecodeGrow<C, N, E>(
    a: seq<seq<C>>, n: nat, b: seq<seq<C>>, m: nat, whole: seq<seq<C>>, fields: seq<ScanField>, decode: Decode<C, N, E>)
    requires Rectangular(a, n) && Rectangular(b, m) && Rectangular(whole, n + m)
    requires |a| == |b| == |whole| == |fields|
    requires forall c :: 0 <= c < |fields| ==> whole[c] == a[c] + b[c]
    ensures AllDecode(whole, n + m, fields, decode) <==> AllDecode(a, n, fields, decode) && AllDecode(b, m, fields, decode)
  {
    if AllDecode(whole, n + m, fields, decode) {
      forall c, r | 0 <= c < |a| && 0 <= r < n ensures decode(a[c][r], fields[c].ty).Ok? {
        assert whole[c][r] == a[c][r];
      }
      forall c, r | 0 <= c < |b| && 0 <= r < m ensures decode(b[c][r], fields[c].ty).Ok? {
        assert whole[c][n + r] == b[c][r];
      }
    }
  }

  /** The batches decoded so far, as one table. */
  ghost predicate DecodedSoFar<C, N, E>(
    rows: seq<map<string, N>>, batches: seq<Batch<C>>, fields: seq<ScanField>, labels: Labels, decode: Decode<C, N, E>)
  {
    && AllWide(batches, |fields|) && WellShaped(batches)
    && Rectangular(JoinedColumns(batches, |fields|), TotalRows(batches))
    && AllDecode(JoinedColumns(batches, |fields|), TotalRows(batches), fields, decode)
    && Transposes(rows, JoinedColumns(batches, |fields|), TotalRows(batches), fields, labels, decode)
  }

  lemma NextBatch<C, N, E>(
    rows: seq<map<string, N>>, more: seq<map<string, N>>, batches: seq<Batch<C>>, b: nat, fields: seq<ScanField>,
    labels: Labels, decode: Decode<C, N, E>)
    requires b < |batches| && WellShaped(batches) && |batches[b].columns| == |fields|
    requires DecodedSoFar(rows, batches[..b], fields, labels, decode)
    requires AllDecode(batches[b].columns, batches[b].numRows, fields, decode)
    requires Transposes(more, batches[b].columns, batches[b].numRows, fields, labels, decode)
    ensures DecodedSoFar(rows + more, batches[..b + 1], fields, labels, decode)
  {
    hide Transposes, AllDecode;
    assert forall i :: 0 <= i < b ==> batches[..b + 1][i] == batches[..b][i];
    JoinedStep(batches, b, |fields|);
    var a, whole := JoinedColumns(batches[..b], |fields|), JoinedColumns(batches[..b + 1], |fields|);
    TransposesGrow(rows, more, a, TotalRows(batches[..b]), batches[b].columns, batches[b].numRows, whole, fields, labels, decode);
    AllDecodeGrow(a, TotalRows(batches[..b]), batches[b].columns, batches[b].numRows, whole, fields, decode);
  }

  /** A batch that does not decode spoils the whole table. */
  lemma {:induction false} BadBatchSpoils<C, N, E>(
    batches: seq<Batch<C>>, b: nat, fields: seq<ScanField>, decode: Decode<C, N, E>)
    requires b < |batches| && WellShaped(batches) && AllWide(batches, |fields|)
    requires Rectangular(JoinedColumns(batches, |fields|), TotalRows(batches))
    requires AllDecode(JoinedColumns(batches, |fields|), TotalRows(batches), fields, decode)
    ensures AllDecode(batches[b].columns, batches[b].numRows, fields, decode)
    decreases |batches|
  {
    var last := |batches| - 1;
    assert batches[..last + 1] == batches;
    JoinedStep(batches, last, |fields|);
    AllDecodeGrow(JoinedColumns(batches[..last], |fields|), TotalRows(batches[..last]),
                  batches[last].columns, batches[last].numRows, JoinedColumns(batches, |fields|), fields, decode);
    if b < last {
      BadBatchSpoils(batches[..last], b, fields, decode);
    }
  }

  /** `decode_scan`: the rows are the transposition of the joined columns, whatever the batching. */
  method DecodeScanRust<C, N, E>(
    batches: seq<Batch<C>>, fields: seq<ScanField>, labels: Labels, decode: Decode<C, N, E>)
    returns (r: Result<Scan<N>, ScanError<E>>)
    requires WellShaped(batches)
    ensures r.Ok? ==> AllLabelled(fields, labels) && DecodedSoFar(r.value.rows, batches, fields, labels, decode)
    ensures r.Ok? ==> SchemaShown(r.value.icebergSchema, fields, labels)
    ensures r.Err? && AllLabelled(fields, labels) && AllWide(batches, |fields|) ==>
              && Rectangular(JoinedColumns(batches, |fields|), TotalRows(batches))
              && !AllDecode(JoinedColumns(batches, |fields|), TotalRows(batches), fields, decode)
  {
    var schema: Result<seq<SchemaField>, ScanError<E>> := ShowSchema(fields, labels);
    if schema.Err? {
      return Err(schema.error);
    }
    var rows: seq<map<string, N>> := [];
    var b := 0;
    while b < |batches|
      invariant 0 <= b <= |batches|
      invariant DecodedSoFar(rows, batches[..b], fields, labels, decode)
    {
      hide DecodedSoFar, Transposes, AllDecode;
      if |batches[b].columns| != |fields| {
        return Err(ColumnCount);
      }
      var more := DecodeBatch(batches[b], fields, labels, decode);
      if more.Err? {
        if AllWide(batches, |fields|) {
          JoinedRectangular(batches, |fields|);
          if AllDecode(JoinedColumns(batches, |fields|), TotalRows(batches), fields, decode) {
            BadBatchSpoils(batches, b, fields, decode);
          }
        }
        return Err(CellError(more.error));
      }
      NextBatch(rows, more.value, batches, b, fields, labels, decode);
      rows := rows + more.value;
      b := b + 1;
    }
    assert batches[..b] == batches;
    r := Ok(Scan(schema.value, rows));
  }

  // ----- the two decoders

  lemma {:induction false} SameRowOf<C, N, E>(
    rows: seq<map<string, N>>, others: seq<map<string, N>>, columns: seq<seq<C>>, n: nat, fields: seq<ScanField>,
    labels: Labels, decode: Decode<C, N, E>)
    requires Rectangular(columns, n) && |columns| == |fields|
    requires Transposes(rows, columns, n, fields, labels, decode) && Transposes(others, columns, n, fields, labels, decode)
    ensures rows == others
  {
    forall r | 0 <= r < n ensures rows[r] == others[r] {
      assert rows[r] == RowOf(columns, n, fields, labels, decode, |fields|, r);
      assert others[r] == RowOf(columns, n, fields, labels, decode, |fields|, r);
    }
  }

  /**
   One table, chunked per column for Go and batched for Rust: both decoders fail, or both succeed
   with the same schema and the same rows.
   */
  method DecodeBoth<C, N, E>(
    chunked: seq<seq<seq<C>>>, batches: seq<Batch<C>>, fields: seq<ScanField>, labels: Labels, decode: Decode<C, N, E>)
    returns (g: Result<Scan<N>, ScanError<E>>, t: Result<Scan<N>, ScanError<E>>)
    requires |chunked| == |fields| && AllWide(batches, |fields|) && WellShaped(batches)
    requires Map(Flatten(), chunked) == JoinedColumns(batches, |fields|)
    ensures g.Ok? <==> t.Ok?
    ensures g.Ok? ==> g.value == t.value
  {
    JoinedRectangular(batches, |fields|);
    g := DecodeScanGo(chunked, TotalRows(batches), fields, labels, decode);
    t := DecodeScanRust(batches, fields, labels, decode);
    if g.Ok? && t.Ok? {
      SameRowOf(g.value.rows, t.value.rows, JoinedColumns(batches, |fields|), TotalRows(batches), fields, labels, decode);
    }
  }

  // ----- the Java decoder

  /** One column of these records, null where a record has no value. */
  function ColumnCell(s: Schema, c: nat): Record -> Option<Value>
    requires c < |s|
  {
    (r: Record) => if s[c].name in r then Some(r[s[c].name]) else None
  }

  /** The records as columns: what the same scan yields as an Arrow table. */
  function CellsOf(s: Schema, records: seq<Record>): (columns: seq<seq<Option<Value>>>)
    ensures |columns| == |s| && forall c :: 0 <= c < |s| ==> columns[c] == Map(ColumnCell(s, c), records)
    ensures Rectangular(columns, |records|)
  {
    seq(|s|, c requires 0 <= c < |s| => Map(ColumnCell(s, c), records))
  }

  function ScanFields(s: Schema): (fields: seq<ScanField>)
    ensures |fields| == |s| && forall c :: 0 <= c < |s| ==> fields[c] == ScanField(s[c].name, TypeName(s[c].ty))
  {
    seq(|s|, c requires 0 <= c < |s| => ScanField(s[c].name, TypeName(s[c].ty)))
  }

  /** The cell decoder that writes what `Decode.node` writes. */
  function CellNode(): Decode<Option<Value>, ValueNode, Problem> {
    (cell: Option<Value>, ty: string) => Ok(if cell.Some? then Some(ValueNode(ty, JsonOf(cell.value))) else None)
  }

  lemma DecodeNext(s: Schema, labels: Labels, r: Record, k: nat)
    requires k < |s| && s[k].name in labels
    ensures DecodeColumns(s[..k + 1], labels, r) ==
              if s[k].name in r
              then DecodeColumns(s[..k], labels, r)[Itoa(labels[s[k].name]) := NodeOf(s[k].ty, r[s[k].name])]
              else DecodeColumns(s[..k], labels, r)
  {
    assert s[..k + 1][..k] == s[..k];
  }

  lemma {:induction false} DecodedRowIsRowOf(s: Schema, labels: Labels, records: seq<Record>, k: nat, r: nat)
    requires k <= |s| && r < |records| && forall c :: 0 <= c < |s| ==> s[c].name in labels
    ensures RowOf(CellsOf(s, records), |records|, ScanFields(s), labels, CellNode(), k, r) ==
              DecodeColumns(s[..k], labels, records[r])
  {
    if k > 0 {
      hide RowOf, DecodeColumns, Map, CellsOf, ScanFields;
      DecodedRowIsRowOf(s, labels, records, k - 1, r);
      assert CellsOf(s, records)[k - 1][r] == ColumnCell(s, k - 1)(records[r]);
      RowOfNext(CellsOf(s, records), |records|, ScanFields(s), labels, CellNode(), k - 1, r);
      DecodeNext(s, labels, records[r], k - 1);
    }
  }

  /** `Decode.row`, record by record, is the transposition too. */
  lemma RowDecoderTransposes(s: Schema, labels: Labels, records: seq<Record>)
    requires forall c :: 0 <= c < |s| ==> s[c].name in labels
    ensures Transposes(Map(Decoder(s, labels), records), CellsOf(s, records), |records|, ScanFields(s), labels, CellNode())
  {
    forall r | 0 <= r < |records|
      ensures Map(Decoder(s, labels), records)[r] ==
                RowOf(CellsOf(s, records), |records|, ScanFields(s), labels, CellNode(), |s|, r)
    {
      assert s[..|s|] == s;
      DecodedRowIsRowOf(s, labels, records, |s|, r);
    }
  }

  lemma CellsDecode(s: Schema, labels: Labels, records: seq<Record>)
    requires forall c :: 0 <= c < |s| ==> s[c].name in labels
    ensures AllLabelled(ScanFields(s), labels)
    ensures AllDecode(CellsOf(s, records), |records|, ScanFields(s), CellNode())
  {
  }

  lemma ShownIsEmitted(schema: seq<SchemaField>, s: Schema, labels: Labels)
    requires SchemaShown(schema, ScanFields(s), labels)
    ensures SchemaFields(s, labels) == Ok(schema)
  {
    SchemaFieldsAt(s, labels);
    hide SchemaFields;
    forall c | 0 <= c < |s|
      ensures s[c].name in labels && schema[c] == SchemaField(labels[s[c].name], s[c].name, TypeName(s[c].ty))
    {
      assert ScanFields(s)[c].name == s[c].name;
    }
    var emitted := SchemaFields(s, labels).value;
    assert emitted == schema;
  }

  /** Whatever the chunking, Go's columns decode to the schema and rows Java emits for the same records. */
  method DecodeRecords(
    chunked: seq<seq<seq<Option<Value>>>>, numRows: nat, s: Schema, labels: Labels, ghost records: seq<Record>)
    returns (r: Result<Scan<ValueNode>, ScanError<Problem>>)
    requires Map(Flatten(), chunked) == CellsOf(s, records) && numRows == |records|
    requires forall c :: 0 <= c < |s| ==> s[c].name in labels
    ensures r.Ok? && SchemaFields(s, labels) == Ok(r.value.icebergSchema)
    ensures r.value.rows == Map(Decoder(s, labels), records)
  {
    hide AllLabelled, AllDecode, SchemaShown, Transposes, SchemaFields, CellsOf;
    CellsDecode(s, labels, records);
    r := DecodeScanGo(chunked, numRows, ScanFields(s), labels, CellNode());
    ShownIsEmitted(r.value.icebergSchema, s, labels);
    RowDecoderTransposes(s, labels, records);
    SameRowOf(r.value.rows, Map(Decoder(s, labels), records), CellsOf(s, records), numRows, ScanFields(s), labels, CellNode());
  }
}
