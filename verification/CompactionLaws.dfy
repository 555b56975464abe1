/** Compaction changes nothing a reader of the latest state can see, at any point of any run. */
module CompactionLaws {
  import opened Wrappers
  import opened Seqs
  import opened Values
  import opened Predicates
  import opened Emit
  import opened Replay
  import opened ReplayLaws

  function NotRewrite(): Entry -> bool {
    (e: Entry) => !e.Rewrite?
  }

  /** The log without its rewrites. */
  function Strip(entries: seq<Entry>): seq<Entry> {
    Filter(NotRewrite(), entries)
  }

  /** The log never time-travels by ordinal: rewrites are commits, so they shift ordinals. */
  predicate NoOrdinals(entries: seq<Entry>) {
    forall i :: 0 <= i < |entries| && entries[i].Observe? ==> !entries[i].at.Ordinal?
  }

  lemma StripSnoc(front: seq<Entry>, e: Entry)
    ensures Strip(front + [e]) == if e.Rewrite? then Strip(front) else Strip(front) + [e]
  {
    FilterAppend(NotRewrite(), front, [e]);
    assert [e][1..] == [];
    assert Filter(NotRewrite(), [e]) == if e.Rewrite? then [] else [e];
  }

  /** What a reader of the latest state, or of the set of bind names, can tell of a state. */
  ghost predicate Alike(l: Logical, k: Logical) {
    && l.version == k.version && l.authored == k.authored
    && l.schema == k.schema && l.labels == k.labels && l.live == k.live
    && l.binds.Keys == k.binds.Keys
    && (l.commits == [] <==> k.commits == [])
    && |l.observations| == |k.observations|
  }

  /** Below version 2 no delete commits, so every stored row is live. */
  predicate AllLive(l: Logical) {
    l.version < 2 ==> l.live == l.stored
  }

  lemma StepAllLive(l: Logical, idx: nat, e: Entry)
    requires AllLive(l) && Step(l, idx, e).Ok?
    ensures AllLive(Step(l, idx, e).value)
  {
    hide MatcherOf, Matches, SchemaFields, ToRecords, WriteProblem, ApplyPromotions, AnyMatch, SourceSchema, SourceRows;
  }

  lemma {:induction false} RunAllLive(h: Header, entries: seq<Entry>)
    requires Run(h, entries).Ok?
    ensures AllLive(Run(h, entries).value)
  {
    hide Run, Step;
    RunLast(h, entries);
    if entries != [] {
      hide AllLive;
      var front := entries[..|entries| - 1];
      RunAllLive(h, front);
      StepAllLive(Run(h, front).value, |front|, entries[|front|]);
    }
  }

  lemma DeleteAlike(l: Logical, k: Logical, i: nat, j: nat, kind: string, pred: Option<Pred>)
    requires Invariant(l) && Invariant(k) && Alike(l, k) && AllLive(l) && AllLive(k)
    ensures StepDelete(l, i, kind, pred).Ok? <==> StepDelete(k, j, kind, pred).Ok?
    ensures StepDelete(l, i, kind, pred).Ok? ==>
              Alike(StepDelete(l, i, kind, pred).value, StepDelete(k, j, kind, pred).value)
  {
    if pred.Some? && MatcherOf(pred.value, l.schema).Ok? {
      var m := MatcherOf(pred.value, l.schema).value;
      if !AnyMatch(m, l.stored) {
        NoMatchRemovesNothing(l, m);
      }
      if !AnyMatch(m, k.stored) {
        NoMatchRemovesNothing(k, m);
      }
    }
  }

  lemma ObserveAlike(l: Logical, k: Logical, at: At, bind: Option<string>)
    requires Invariant(l) && Invariant(k) && Alike(l, k) && !at.Ordinal?
    ensures StepObserve(l, at, bind).Ok? <==> StepObserve(k, at, bind).Ok?
    ensures StepObserve(l, at, bind).Ok? ==> Alike(StepObserve(l, at, bind).value, StepObserve(k, at, bind).value)
    ensures at == Named("latest") ==>
              && StepObserve(l, at, bind).Ok?
              && |StepObserve(l, at, bind).value.observations| == |l.observations| + 1
              && StepObserve(l, at, bind).value.observations[|l.observations|] ==
                 StepObserve(k, at, bind).value.observations[|k.observations|]
  {
    hide Invariant, StepObserve, SchemaFields, Map, Decoder, AtEcho;
    ObserveInvariant(l, at, bind);
    ObserveInvariant(k, at, bind);
  }

  lemma StepAlike(l: Logical, k: Logical, i: nat, j: nat, e: Entry)
    requires Invariant(l) && Invariant(k) && Alike(l, k) && AllLive(l) && AllLive(k)
    requires !e.Rewrite? && (e.Observe? ==> !e.at.Ordinal?)
    ensures Step(l, i, e).Ok? <==> Step(k, j, e).Ok?
    ensures Step(l, i, e).Ok? ==> Alike(Step(l, i, e).value, Step(k, j, e).value)
  {
    match e
    case Delete(kind, pred) => DeleteAlike(l, k, i, j, kind, pred);
    case Observe(at, bind) => ObserveAlike(l, k, at, bind);
    case _ =>
  }

  lemma RewriteAlike(l: Logical, k: Logical, i: nat)
    requires Invariant(l) && Alike(l, k)
    ensures Step(l, i, Rewrite).Ok? && Alike(Step(l, i, Rewrite).value, k)
  {
  }

  /** Dropping every rewrite from a log keeps success, rows, schema, labels and bind names. */
  lemma {:induction false} CompactionTransparent(h: Header, entries: seq<Entry>)
    requires NoOrdinals(entries)
    ensures Run(h, entries).Ok? <==> Run(h, Strip(entries)).Ok?
    ensures Run(h, entries).Ok? ==> Alike(Run(h, entries).value, Run(h, Strip(entries)).value)
  {
    if entries != [] {
      hide Invariant, Alike, Step, Strip, AllLive;
      var front, e := entries[..|entries| - 1], entries[|entries| - 1];
      assert entries == front + [e];
      CompactionTransparent(h, front);
      StripSnoc(front, e);
      RunSnoc(h, front, e);
      RunSnoc(h, Strip(front), e);
      if Run(h, front).Ok? {
        var l, k := Run(h, front).value, Run(h, Strip(front)).value;
        RunInvariant(h, front);
        RunInvariant(h, Strip(front));
        RunAllLive(h, front);
        RunAllLive(h, Strip(front));
        if e.Rewrite? {
          RewriteAlike(l, k, |front|);
        } else {
          StepAlike(l, k, |front|, |Strip(front)|, e);
        }
      }
    } else {
      assert Strip(entries) == entries;
    }
  }

  /** After any log, an observe at latest emits the same with and without the log's rewrites. */
  lemma CompactionInvisible(h: Header, entries: seq<Entry>, bind: Option<string>)
    requires NoOrdinals(entries) && Run(h, entries).Ok?
    ensures Run(h, Strip(entries)).Ok?
    ensures var l, k := Run(h, entries).value, Run(h, Strip(entries)).value;
            var x, y := StepObserve(l, Named("latest"), bind), StepObserve(k, Named("latest"), bind);
            && x.Ok? && y.Ok?
            && |x.value.observations| == |y.value.observations| == |l.observations| + 1
            && x.value.observations[|l.observations|] == y.value.observations[|l.observations|]
  {
    CompactionTransparent(h, entries);
    RunInvariant(h, entries);
    RunInvariant(h, Strip(entries));
    ObserveAlike(Run(h, entries).value, Run(h, Strip(entries)).value, Named("latest"), bind);
  }
}
