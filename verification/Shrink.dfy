/** `shrink.go`: delta minimisation of a diverging op-log against an arbitrary deterministic oracle. */
module Shrink {
  import opened Wrappers
  import opened Seqs
  import opened GenLog

  /** `cur` is `ops` read at the increasing positions `kept`. */
  ghost predicate Picks(kept: seq<nat>, cur: seq<Op>, ops: seq<Op>) {
    && |kept| == |cur|
    && (forall i :: 0 <= i < |kept| ==> kept[i] < |ops| && cur[i] == ops[kept[i]])
    && (forall i, j :: 0 <= i < j < |kept| ==> kept[i] < kept[j])
  }

  ghost predicate Subsequence(cur: seq<Op>, ops: seq<Op>) {
    exists kept :: Picks(kept, cur, ops)
  }

  predicate EndsInObserve(ops: seq<Op>) {
    ops != [] && ops[|ops| - 1].ObserveOp?
  }

  /** The terminal observe is never dropped. */
  predicate Droppable(ops: seq<Op>, i: nat)
    requires i < |ops|
  {
    !(i == |ops| - 1 && ops[i].ObserveOp?)
  }

  /** Removing any single droppable op gives a log that does not diverge. */
  ghost predicate OneMinimal(diverges: seq<Op> -> bool, ops: seq<Op>) {
    forall i :: 0 <= i < |ops| && Droppable(ops, i) ==> !diverges(RemoveAt(ops, i))
  }

  // ----- the run of the shrinker, as a function of the test

  /** The first op from `i` on whose removal still diverges. */
  function FirstDrop(diverges: seq<Op> -> bool, ops: seq<Op>, i: nat): (d: Option<nat>)
    requires i <= |ops|
    ensures d.Some? ==> i <= d.value < |ops|
    decreases |ops| - i
  {
    if i == |ops| then None
    else if Droppable(ops, i) && diverges(RemoveAt(ops, i)) then Some(i)
    else FirstDrop(diverges, ops, i + 1)
  }

  /** How many logs are tested to find it. */
  function TestedFrom(diverges: seq<Op> -> bool, ops: seq<Op>, i: nat): nat
    requires i <= |ops|
    decreases |ops| - i
  {
    if i == |ops| then 0
    else if !Droppable(ops, i) then TestedFrom(diverges, ops, i + 1)
    else if diverges(RemoveAt(ops, i)) then 1
    else 1 + TestedFrom(diverges, ops, i + 1)
  }

  /** Drop the first op that can go, and begin again. */
  function Shrunk(diverges: seq<Op> -> bool, ops: seq<Op>): seq<Op>
    decreases |ops|
  {
    match FirstDrop(diverges, ops, 0)
    case None => ops
    case Some(i) => Shrunk(diverges, RemoveAt(ops, i))
  }

  function Tested(diverges: seq<Op> -> bool, ops: seq<Op>): nat
    decreases |ops|
  {
    TestedFrom(diverges, ops, 0) +
    match FirstDrop(diverges, ops, 0)
    case None => 0
    case Some(i) => Tested(diverges, RemoveAt(ops, i))
  }

  lemma NextTest(diverges: seq<Op> -> bool, ops: seq<Op>, i: nat)
    requires i < |ops|
    ensures !Droppable(ops, i) ==>
              && FirstDrop(diverges, ops, i) == FirstDrop(diverges, ops, i + 1)
              && TestedFrom(diverges, ops, i) == TestedFrom(diverges, ops, i + 1)
    ensures Droppable(ops, i) && !diverges(RemoveAt(ops, i)) ==>
              && FirstDrop(diverges, ops, i) == FirstDrop(diverges, ops, i + 1)
              && TestedFrom(diverges, ops, i) == 1 + TestedFrom(diverges, ops, i + 1)
    ensures Droppable(ops, i) && diverges(RemoveAt(ops, i)) ==>
              FirstDrop(diverges, ops, i) == Some(i) && TestedFrom(diverges, ops, i) == 1
  {
  }

  lemma PassEnds(diverges: seq<Op> -> bool, ops: seq<Op>)
    ensures FirstDrop(diverges, ops, |ops|) == None && TestedFrom(diverges, ops, |ops|) == 0
  {
  }

  lemma PassDecides(diverges: seq<Op> -> bool, ops: seq<Op>)
    ensures match FirstDrop(diverges, ops, 0) {
              case None => Shrunk(diverges, ops) == ops && Tested(diverges, ops) == TestedFrom(diverges, ops, 0)
              case Some(i) =>
                && Shrunk(diverges, ops) == Shrunk(diverges, RemoveAt(ops, i))
                && Tested(diverges, ops) == TestedFrom(diverges, ops, 0) + Tested(diverges, RemoveAt(ops, i))
            }
  {
  }

  // ----- bounds

  /** The sum of the passes over n, n - 1, ..., 1 ops. */
  function Budget(n: nat, ends: bool): nat {
    if n == 0 then 0 else Budget(n - 1, ends) + if ends then n - 1 else n
  }

  lemma {:induction false} BudgetClosed(n: nat, ends: bool)
    ensures Budget(n, ends) * 2 == if ends then (if n == 0 then 0 else n * (n - 1)) else n * (n + 1)
  {
    if n > 0 {
      BudgetClosed(n - 1, ends);
    }
  }

  lemma BudgetBound(calls: nat, n: nat, ends: bool)
    requires calls <= Budget(n, ends) && (ends ==> n > 0)
    ensures calls * 2 <= n * (n + 1)
    ensures ends ==> calls * 2 <= n * (n - 1)
  {
    BudgetClosed(n, ends);
    assert n * (n - 1) <= n * (n + 1);
  }

  /** A pass that drops an op, and one that drops none, both fit the budget. */
  lemma PassFits(n: nat, ends: bool, used: nat)
    requires n > 0 && used <= if ends then n - 1 else n
    ensures used + Budget(n - 1, ends) <= Budget(n, ends)
    ensures used <= Budget(n, ends)
  {
    if ends && n > 1 {
      assert Budget(n - 1, ends) >= 0;
    }
  }

  lemma DroppableAt(ops: seq<Op>, i: nat)
    requires i < |ops|
    ensures Droppable(ops, i) <==> !(i == |ops| - 1 && ops[i].ObserveOp?)
  {
  }

  lemma NothingToDrop(diverges: seq<Op> -> bool, ops: seq<Op>)
    requires forall j :: 0 <= j < |ops| && Droppable(ops, j) ==> !diverges(RemoveAt(ops, j))
    ensures OneMinimal(diverges, ops)
  {
  }

  lemma PickedFrom(kept: seq<nat>, cur: seq<Op>, ops: seq<Op>)
    requires Picks(kept, cur, ops)
    ensures Subsequence(cur, ops)
  {
  }

  lemma AllPicked(kept: seq<nat>, ops: seq<Op>)
    requires |kept| == |ops| && forall i :: 0 <= i < |kept| ==> kept[i] == i
    ensures Picks(kept, ops, ops)
  {
  }

  lemma DropPicks(kept: seq<nat>, cur: seq<Op>, ops: seq<Op>, i: nat)
    requires Picks(kept, cur, ops) && i < |cur|
    ensures Picks(RemoveAt(kept, i), RemoveAt(cur, i), ops)
  {
    var k, c := RemoveAt(kept, i), RemoveAt(cur, i);
    forall j | 0 <= j < |k| ensures k[j] < |ops| && c[j] == ops[k[j]] {
      assert k[j] == kept[if j < i then j else j + 1] && c[j] == cur[if j < i then j else j + 1];
    }
    forall p, q | 0 <= p < q < |k| ensures k[p] < k[q] {
      assert k[p] == kept[if p < i then p else p + 1] && k[q] == kept[if q < i then q else q + 1];
    }
  }

  /** Dropping an op before a terminal observe keeps that observe last. */
  lemma DropKeepsEnd(ops: seq<Op>, i: nat)
    requires i < |ops| && Droppable(ops, i) && EndsInObserve(ops)
    ensures EndsInObserve(RemoveAt(ops, i))
    ensures RemoveAt(ops, i)[|ops| - 2] == ops[|ops| - 1]
  {
  }

  // ----- what every run of the shrinker keeps

  lemma {:induction false} NoneToDrop(diverges: seq<Op> -> bool, ops: seq<Op>, i: nat)
    requires i <= |ops|
    ensures match FirstDrop(diverges, ops, i) {
              case None => forall j :: i <= j < |ops| && Droppable(ops, j) ==> !diverges(RemoveAt(ops, j))
              case Some(d) => Droppable(ops, d) && diverges(RemoveAt(ops, d))
            }
    decreases |ops| - i
  {
    hide Droppable, RemoveAt;
    if i < |ops| {
      NoneToDrop(diverges, ops, i + 1);
    }
  }

  lemma {:induction false} ShrunkIsMinimal(diverges: seq<Op> -> bool, ops: seq<Op>)
    ensures OneMinimal(diverges, Shrunk(diverges, ops))
    ensures Shrunk(diverges, ops) == ops || diverges(Shrunk(diverges, ops))
    decreases |ops|
  {
    hide Droppable, RemoveAt, FirstDrop, OneMinimal;
    NoneToDrop(diverges, ops, 0);
    match FirstDrop(diverges, ops, 0)
    case None => NothingToDrop(diverges, ops);
    case Some(i) => ShrunkIsMinimal(diverges, RemoveAt(ops, i));
  }

  lemma {:induction false} ShrunkIsPicked(diverges: seq<Op> -> bool, cur: seq<Op>, kept: seq<nat>, ops: seq<Op>)
    requires Picks(kept, cur, ops)
    ensures Subsequence(Shrunk(diverges, cur), ops)
    decreases |cur|
  {
    hide Picks, Droppable, RemoveAt, FirstDrop, Subsequence;
    match FirstDrop(diverges, cur, 0)
    case None => PickedFrom(kept, cur, ops);
    case Some(i) =>
      DropPicks(kept, cur, ops, i);
      ShrunkIsPicked(diverges, RemoveAt(cur, i), RemoveAt(kept, i), ops);
  }

  lemma {:induction false} ShrunkKeepsEnd(diverges: seq<Op> -> bool, ops: seq<Op>)
    requires EndsInObserve(ops)
    ensures var cur := Shrunk(diverges, ops); EndsInObserve(cur) && cur[|cur| - 1] == ops[|ops| - 1]
    decreases |ops|
  {
    hide Droppable, RemoveAt, FirstDrop;
    NoneToDrop(diverges, ops, 0);
    match FirstDrop(diverges, ops, 0)
    case None =>
    case Some(i) =>
      DropKeepsEnd(ops, i);
      ShrunkKeepsEnd(diverges, RemoveAt(ops, i));
  }

  /** A pass tests each op at most once, and never a terminal observe. */
  lemma {:induction false} PassBound(diverges: seq<Op> -> bool, ops: seq<Op>, i: nat)
    requires i <= |ops|
    ensures TestedFrom(diverges, ops, i) <= |ops| - i
    ensures EndsInObserve(ops) && i < |ops| ==> TestedFrom(diverges, ops, i) < |ops| - i
    decreases |ops| - i
  {
    hide Droppable, RemoveAt;
    if i < |ops| {
      DroppableAt(ops, i);
      PassBound(diverges, ops, i + 1);
    }
  }

  lemma {:induction false} TestedFits(diverges: seq<Op> -> bool, ops: seq<Op>, ends: bool)
    requires ends ==> EndsInObserve(ops)
    ensures Tested(diverges, ops) <= Budget(|ops|, ends)
    decreases |ops|
  {
    hide Droppable, RemoveAt, FirstDrop, TestedFrom, Budget, EndsInObserve;
    PassBound(diverges, ops, 0);
    NoneToDrop(diverges, ops, 0);
    if ends {
      SomeOp(ops);
    }
    match FirstDrop(diverges, ops, 0)
    case None =>
      if ops != [] {
        PassFits(|ops|, ends, TestedFrom(diverges, ops, 0));
      }
    case Some(i) =>
      if ends {
        DropKeepsEnd(ops, i);
      }
      TestedFits(diverges, RemoveAt(ops, i), ends);
      PassFits(|ops|, ends, TestedFrom(diverges, ops, 0));
  }

  lemma SomeOp(ops: seq<Op>)
    requires EndsInObserve(ops)
    ensures ops != []
  {
  }

  /** What the greedy run comes to, for every test. */
  lemma ShrunkKeeps(diverges: seq<Op> -> bool, ops: seq<Op>)
    ensures var cur, calls := Shrunk(diverges, ops), Tested(diverges, ops);
            && Subsequence(cur, ops)
            && (cur == ops || diverges(cur))
            && OneMinimal(diverges, cur)
            && (EndsInObserve(ops) ==> EndsInObserve(cur) && cur[|cur| - 1] == ops[|ops| - 1])
            && calls * 2 <= |ops| * (|ops| + 1)
            && (EndsInObserve(ops) ==> calls * 2 <= |ops| * (|ops| - 1))
  {
    hide Subsequence, OneMinimal, Shrunk, Tested, Budget, Picks;
    var kept: seq<nat> := seq(|ops|, (i: nat) => i);
    AllPicked(kept, ops);
    ShrunkIsPicked(diverges, ops, kept, ops);
    ShrunkIsMinimal(diverges, ops);
    TestedFits(diverges, ops, EndsInObserve(ops));
    BudgetBound(Tested(diverges, ops), |ops|, EndsInObserve(ops));
    if EndsInObserve(ops) {
      ShrunkKeepsEnd(diverges, ops);
    }
  }

  /**
   `shrink`: the result is a subsequence of the input that still diverges if the input did and is
   1-minimal; a terminal observe survives; the oracle is called at most n(n+1)/2 times on n ops,
   n(n-1)/2 when the input ends in an observe. Which ops go, and how many tests that takes, is told by
   the test alone: always the first op that can go.
   */
  method Shrink(diverges: seq<Op> -> bool, ops: seq<Op>) returns (cur: seq<Op>, calls: nat)
    ensures cur == Shrunk(diverges, ops) && calls == Tested(diverges, ops)
    ensures Subsequence(cur, ops)
    ensures cur == ops || diverges(cur)
    ensures OneMinimal(diverges, cur)
    ensures EndsInObserve(ops) ==> EndsInObserve(cur) && cur[|cur| - 1] == ops[|ops| - 1]
    ensures calls * 2 <= |ops| * (|ops| + 1)
    ensures EndsInObserve(ops) ==> calls * 2 <= |ops| * (|ops| - 1)
  {
    hide RemoveAt, Subsequence, OneMinimal, Droppable, FirstDrop, TestedFrom, Shrunk, Tested;
    cur, calls := ops, 0;
    var changed := true;
    while changed
      invariant Shrunk(diverges, ops) == if changed then Shrunk(diverges, cur) else cur
      invariant Tested(diverges, ops) == calls + if changed then Tested(diverges, cur) else 0
      decreases |cur|, changed
    {
      changed := false;
      ghost var before := calls;
      PassDecides(diverges, cur);
      PassEnds(diverges, cur);
      var i := 0;
      while i < |cur|
        invariant 0 <= i <= |cur|
        invariant FirstDrop(diverges, cur, 0) == FirstDrop(diverges, cur, i)
        invariant TestedFrom(diverges, cur, 0) == calls - before + TestedFrom(diverges, cur, i)
      {
        DroppableAt(cur, i);
        NextTest(diverges, cur, i);
        if i == |cur| - 1 && cur[i].ObserveOp? {
          i := i + 1;
          continue;
        }
        var trial := RemoveAt(cur, i);
        calls := calls + 1;
        if diverges(trial) {
          cur := trial;
          changed := true;
          break;
        }
        i := i + 1;
      }
    }
    ShrunkKeeps(diverges, ops);
  }
}
