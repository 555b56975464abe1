/** A promotion of a generated log, lowered to the runner. */
module LoweredPromotions {
  import opened Seqs
  import opened Values
  import opened Emit
  import opened Replay
  import opened GenLog
  import opened EndToEnd
  import opened RunMeaning

  function LowerFields(schema: seq<GenField>): Schema {
    BuildSchema(Map(LowerField(), schema))
  }

  /**
   From any run whose schema is that of the replay, lowered: a meaningful promotion, lowered, is taken,
   and again the schema is that of the replay.
   */
  lemma PromotionFollows(log: OpLog, front: seq<Entry>, g: Replayed, id: int, to: string)
    requires Run(LowerHeader(log), front).Ok? && UsableIds(LowerHeader(log).fields)
    requires Run(LowerHeader(log), front).value.schema == LowerFields(g.schema)
    requires |g.schema| == |log.schema| && forall i :: 0 <= i < |g.schema| ==> g.schema[i].id == log.schema[i].id
    requires Meaningful(g, PromoteOp(id, to))
    ensures var run := Run(LowerHeader(log), front + [LowerOp()(PromoteOp(id, to))]);
            run.Ok? && run.value.schema == LowerFields(ReplayStep(g, PromoteOp(id, to)).schema)
  {
    hide Run, UsableIds, LegalTargets, TypeWord, MayBecome, LowerFields;
    var j := FieldIndex(g.schema, id).value;
    var l := Run(LowerHeader(log), front).value;
    LoweredColumn(log, j);
    LegalLowered(g.schema[j].ty, to);
    LoweredRetype(g.schema, j, to);
    PromotionTaken(LowerHeader(log), front, j, TypeWord(to));
  }

  lemma LoweredColumn(log: OpLog, j: nat)
    requires j < |log.schema|
    ensures j < |LowerHeader(log).fields| && LowerHeader(log).fields[j].id == log.schema[j].id
  {
  }

  lemma LegalLowered(from: string, to: string)
    requires to in LegalTargets(from)
    ensures MayBecome(TypeWord(from), TypeWord(to))
  {
  }

  lemma LoweredRetype(schema: seq<GenField>, j: nat, to: string)
    requires j < |schema|
    ensures var s := LowerFields(schema);
            && |s| == |schema| + 1 && s[j + 1].ty == TypeWord(schema[j].ty)
            && LowerFields(schema[j := schema[j].(ty := to)]) == s[j + 1 := s[j + 1].(ty := TypeWord(to))]
  {
    hide TypeWord;
  }
}
