/**
 The generator as a function of its choices: which op each stretch of the stream draws, over the
 replay of what was logged before. No state, no shared rows; `Generator` is proved to log exactly
 these ops, so that one seed gives one log.
 */
module Draws {
  import opened Text
  import opened Numerals
  import opened GenLog

  /** The choices a seed stands for. */
  type Stream = nat -> nat

  /** What is drawn, and the place of the next choice. */
  datatype Drawn<T> = Drawn(value: T, pos: nat)

  datatype Choice = ChooseAppend | ChooseObserve | ChooseDelete | ChoosePromote

  datatype Features = Features(delete: bool, promote: bool, wideTypes: bool)

  /** What a turn sees: the replay so far, how many binds there are, and the number of the next row. */
  datatype Seen = Seen(g: Replayed, binds: nat, nextRow: nat)

  function Below(stream: Stream, pos: nat, n: nat): (k: nat)
    requires n > 0
    ensures k < n
  {
    stream(pos) % n
  }

  // ----- values

  function HexAt(stream: Stream, pos: nat, n: nat): string {
    if n == 0 then "" else HexAt(stream, pos, n - 1) + ["0123456789abcdef"[Below(stream, pos + n - 1, 16)]]
  }

  function LettersAt(stream: Stream, pos: nat, n: nat): string {
    if n == 0 then "" else LettersAt(stream, pos, n - 1) + ["abcdefghijklmnopqrstuvwxyz"[Below(stream, pos + n - 1, 26)]]
  }

  function Dashed(h: string): string {
    if |h| < 32 then h
    else h[0..8] + "-" + h[8..12] + "-" + h[12..16] + "-" + h[16..20] + "-" + h[20..32]
  }

  function CentsText(whole: nat, cents: nat): string {
    NatText(whole) + "." + [Digit(cents / 10 % 10), Digit(cents % 10)]
  }

  function ValueAt(stream: Stream, pos: nat, ty: string): Drawn<TypedVal> {
    if ty == "int" then Drawn(TypedVal("int", Itoa((Below(stream, pos, 2000) as int) - 1000), false), pos + 1)
    else if ty == "long" then
      if Below(stream, pos, 3) == 0
      then Drawn(TypedVal("long", Itoa(3000000000 + Below(stream, pos + 1, 1000000)), false), pos + 2)
      else Drawn(TypedVal("long", Itoa((Below(stream, pos + 1, 2000) as int) - 1000), false), pos + 2)
    else if ty == "float" then Drawn(TypedVal("float", FractionText(Below(stream, pos, 1000), 8), false), pos + 1)
    else if ty == "double" then Drawn(TypedVal("double", FractionText(Below(stream, pos, 100000), 64), false), pos + 1)
    else if ty == "boolean" then
      Drawn(TypedVal("boolean", if Below(stream, pos, 2) == 0 then "true" else "false", false), pos + 1)
    else if ty == "uuid" then Drawn(TypedVal("uuid", Dashed(HexAt(stream, pos, 32)), false), pos + 32)
    else if HasPrefix(ty, "fixed[") then Drawn(TypedVal("fixed", HexAt(stream, pos, 8), false), pos + 8)
    else if HasPrefix(ty, "decimal(") then
      Drawn(TypedVal("decimal", CentsText(Below(stream, pos, 1000), Below(stream, pos + 1, 100)), false), pos + 2)
    else
      var n := 1 + Below(stream, pos, 5);
      Drawn(TypedVal("string", LettersAt(stream, pos + 1, n), false), pos + 1 + n)
  }

  // ----- appends

  /** One column after another; an optional one is left out one time in four. */
  function ValsAt(stream: Stream, pos: nat, schema: seq<GenField>): Drawn<map<string, TypedVal>> {
    if schema == [] then Drawn(map[], pos)
    else
      var front, f := ValsAt(stream, pos, schema[..|schema| - 1]), schema[|schema| - 1];
      if !f.required && Below(stream, front.pos, 4) == 0 then Drawn(front.value, front.pos + 1)
      else
        var v := ValueAt(stream, if f.required then front.pos else front.pos + 1, f.ty);
        Drawn(front.value[f.name := v.value], v.pos)
  }

  function RowsAt(stream: Stream, pos: nat, schema: seq<GenField>, first: nat, n: nat): Drawn<seq<GenRow>> {
    if n == 0 then Drawn([], pos)
    else
      var front := RowsAt(stream, pos, schema, first, n - 1);
      var vals := ValsAt(stream, front.pos, schema);
      Drawn(front.value + [GenRow("r" + Itoa(first + n - 1), vals.value)], vals.pos)
  }

  function AppendAt(stream: Stream, pos: nat, v: Seen): Drawn<Op> {
    var rows := RowsAt(stream, pos + 1, v.g.schema, v.nextRow, 1 + Below(stream, pos, 3));
    Drawn(AppendOp(rows.value), rows.pos)
  }

  // ----- the other ops

  function RowKeyed(live: seq<GenRow>, key: string): GenRow {
    if live == [] then GenRow(key, map[]) else if live[0].rowKey == key then live[0] else RowKeyed(live[1..], key)
  }

  function ScalarIn(r: GenRow, name: string): string {
    if name in r.vals then r.vals[name].scalar else ""
  }

  /** A live row, by its place among the sorted keys, and its id as it reads under the column's type. */
  function DeleteAt(stream: Stream, pos: nat, v: Seen): Drawn<Op> {
    var keys := SortStrings(Keys(v.g.live));
    if keys == [] || FieldIndex(v.g.schema, 1).None? then Drawn(ObserveOp("latest", ""), pos)
    else
      var f := v.g.schema[FieldIndex(v.g.schema, 1).value];
      var victim := RowKeyed(v.g.live, keys[Below(stream, pos, |keys|)]);
      Drawn(DeleteOp(f.name, TypedVal(TagOf(f.ty), ScalarIn(victim, f.name), false)), pos + 1)
  }

  function Candidates(schema: seq<GenField>): seq<GenField> {
    if schema == [] then []
    else
      var front, f := Candidates(schema[..|schema| - 1]), schema[|schema| - 1];
      if LegalTargets(f.ty) != [] then front + [f] else front
  }

  function PromoteAt(stream: Stream, pos: nat, v: Seen): Drawn<Op> {
    var fs := Candidates(v.g.schema);
    if fs == [] then Drawn(ObserveOp("latest", ""), pos)
    else
      var f := fs[Below(stream, pos, |fs|)];
      if LegalTargets(f.ty) == [] then Drawn(ObserveOp("latest", ""), pos)
      else Drawn(PromoteOp(f.id, LegalTargets(f.ty)[Below(stream, pos + 1, |LegalTargets(f.ty)|)]), pos + 2)
  }

  /** One observe in three reads a bind, if there is one; of the others one in two binds. */
  function ObserveAt(stream: Stream, pos: nat, v: Seen): Drawn<Op> {
    if v.binds > 0 && Below(stream, pos, 3) == 0 then Drawn(ObserveOp("b" + Itoa(Below(stream, pos + 1, v.binds)), ""), pos + 2)
    else
      var after := if v.binds > 0 then pos + 1 else pos;
      Drawn(ObserveOp("latest", if Below(stream, after, 2) == 0 then "b" + Itoa(v.binds) else ""), after + 1)
  }

  // ----- turns

  function Choices(v: Seen, feat: Features): (cs: seq<Choice>)
    ensures |cs| >= 2
  {
    [ChooseAppend, ChooseObserve]
    + (if feat.delete && v.g.live != [] then [ChooseDelete] else [])
    + (if feat.promote && Promotable(v.g.schema) > 0 then [ChoosePromote] else [])
  }

  function OpAt(stream: Stream, pos: nat, v: Seen, feat: Features): Drawn<Op> {
    var cs := Choices(v, feat);
    match cs[Below(stream, pos, |cs|)]
    case ChooseAppend => AppendAt(stream, pos + 1, v)
    case ChooseObserve => ObserveAt(stream, pos + 1, v)
    case ChooseDelete => DeleteAt(stream, pos + 1, v)
    case ChoosePromote => PromoteAt(stream, pos + 1, v)
  }

  /** The binds and the rows an op adds. */
  function Binds(op: Op): nat {
    if op.ObserveOp? && op.bind != "" then 1 else 0
  }

  function Rows(op: Op): nat {
    if op.AppendOp? then |op.rows| else 0
  }

  function BindsIn(ops: seq<Op>): nat {
    if ops == [] then 0 else BindsIn(ops[..|ops| - 1]) + Binds(ops[|ops| - 1])
  }

  function RowsIn(ops: seq<Op>): nat {
    if ops == [] then 0 else RowsIn(ops[..|ops| - 1]) + Rows(ops[|ops| - 1])
  }

  /** What the turn after these ops sees. */
  function SeenAfter(start: seq<GenField>, first: nat, ops: seq<Op>): Seen {
    Seen(ReplayOps(start, ops), BindsIn(ops), first + RowsIn(ops))
  }

  /** An append, and then turn after turn. */
  function OpsAt(stream: Stream, pos: nat, start: seq<GenField>, first: nat, feat: Features, n: nat): Drawn<seq<Op>> {
    if n == 0 then Drawn([], pos)
    else
      var front := OpsAt(stream, pos, start, first, feat, n - 1);
      var v := SeenAfter(start, first, front.value);
      var op := if n == 1 then AppendAt(stream, front.pos, v) else OpAt(stream, front.pos, v, feat);
      Drawn(front.value + [op.value], op.pos)
  }

  // ----- the log

  const SEED_SCHEMA := [GenField(1, "id", "long", true), GenField(2, "val", "string", false)]

  function WideType(k: nat): string
    requires k < 4
  {
    match k
    case 0 => "boolean"
    case 1 => "fixed[4]"
    case 2 => "decimal(9,2)"
    case _ => "uuid"
  }

  /** The seed schema, in some logs with one optional column of a wider type more. */
  function SchemaAt(stream: Stream, wide: bool): Drawn<seq<GenField>> {
    if !wide then Drawn(SEED_SCHEMA, 0)
    else if Below(stream, 0, 2) != 0 then Drawn(SEED_SCHEMA, 1)
    else Drawn(SEED_SCHEMA + [GenField(3, "w", WideType(Below(stream, 1, 4)), false)], 2)
  }

  /** The log of a seed: the ops drawn, an observe, and the keys and types their replay ends with. */
  function LogOf(stream: Stream, version: nat, count: int, feat: Features): OpLog {
    var start := SchemaAt(stream, feat.wideTypes);
    var drawn := OpsAt(stream, start.pos, start.value, 1, feat, if count < 1 then 1 else count);
    var ops := Emitted(start.value, drawn.value + [ObserveOp("latest", "")]);
    var end := ReplayOps(start.value, ops);
    OpLog(version, start.value, ops, SortStrings(Keys(end.live)), TypesOf(end.schema))
  }
}
