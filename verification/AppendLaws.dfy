/** Two adjacent appends may be exchanged anywhere in a log, as a reader of its later states can tell. */
module AppendLaws {
  import opened Wrappers
  import opened Seqs
  import opened Values
  import opened Predicates
  import opened Emit
  import opened Replay
  import opened ReplayLaws
  import opened BindLaws

  /**
   The states differ in the order of rows, in what commit `n` holds, and in how many records the two
   commits `n` and `n + 1` report; no bind names commit `n`.
   */
  ghost predicate Exchanged(l: Logical, k: Logical, n: nat) {
    && l.version == k.version && l.authored == k.authored && l.schema == k.schema && l.labels == k.labels
    && SameBag(l.live, k.live) && SameBag(l.stored, k.stored)
    && l.files == k.files && l.deletes == k.deletes
    && n + 1 < |l.commits| && CommitsExchanged(l.commits, k.commits, n)
    && l.binds == k.binds && (forall b :: b in l.binds ==> l.binds[b] != n)
    && |l.observations| == |k.observations|
  }

  ghost predicate CommitsExchanged(a: seq<Commit>, b: seq<Commit>, n: nat) {
    |a| == |b| && forall j :: 0 <= j < |a| ==> CommitExchanged(a[j], b[j], j, n)
  }

  predicate CommitExchanged(c: Commit, d: Commit, j: nat, n: nat) {
    && c.schema == d.schema
    && (j != n ==> SameBag(c.rows, d.rows))
    && (j != n && j != n + 1 ==> c.out == d.out)
    && (j == n + 1 ==> c.out == AddingAs(d.out, c.out))
    && (j == n ==> c.out == AddingAs(d.out.(summary := d.out.summary.(totalRecords := c.out.summary.totalRecords)), c.out))
  }

  /** The snapshot with the number of added records of another. */
  function AddingAs(out: SnapshotOut, other: SnapshotOut): SnapshotOut {
    out.(summary := out.summary.(addedRecords := other.summary.addedRecords))
  }

  /** Later commits of both states stay alike. */
  lemma CommittedExchanged(l: Logical, k: Logical, n: nat, operation: string, added: nat, removed: nat, more: nat)
    requires Exchanged(l, k, n)
    ensures Exchanged(Committed(l, operation, added, removed, more), Committed(k, operation, added, removed, more), n)
  {
    hide DeleteFileOuts, SummaryOf;
    SameBagMembers(l.stored, k.stored);
  }

  lemma BagMatches(m: Matcher, a: seq<Record>, b: seq<Record>)
    requires SameBag(a, b)
    ensures AnyMatch(m, a) <==> AnyMatch(m, b)
  {
    hide Matches;
    SameBagMembers(a, b);
    if AnyMatch(m, a) {
      var i :| 0 <= i < |a| && Matches(m, a[i]);
      assert a[i] in b;
    }
    if AnyMatch(m, b) {
      var i :| 0 <= i < |b| && Matches(m, b[i]);
      assert b[i] in a;
    }
  }

  lemma DeleteExchanged(l: Logical, k: Logical, n: nat, idx: nat, kind: string, pred: Option<Pred>)
    requires Exchanged(l, k, n)
    ensures StepDelete(l, idx, kind, pred).Ok? <==> StepDelete(k, idx, kind, pred).Ok?
    ensures StepDelete(l, idx, kind, pred).Ok? ==>
              Exchanged(StepDelete(l, idx, kind, pred).value, StepDelete(k, idx, kind, pred).value, n)
  {
    hide MatcherOf, AnyMatch, Filter;
    if pred.Some? && MatcherOf(pred.value, l.schema).Ok? {
      var m := MatcherOf(pred.value, l.schema).value;
      BagMatches(m, l.stored, k.stored);
      FilterBag(Survives(m), l.live, k.live);
      hide Committed;
      CommittedExchanged(l.(live := Filter(Survives(m), l.live), deletes := l.deletes + 1),
                         k.(live := Filter(Survives(m), k.live), deletes := k.deletes + 1), n, "delete", 0, 0, 1);
    }
  }

  lemma AppendExchanged(l: Logical, k: Logical, n: nat, rows: seq<RowIn>)
    requires Exchanged(l, k, n)
    ensures StepAppend(l, rows).Ok? <==> StepAppend(k, rows).Ok?
    ensures StepAppend(l, rows).Ok? ==> Exchanged(StepAppend(l, rows).value, StepAppend(k, rows).value, n)
  {
    hide ToRecords, WriteProblem, Committed;
    if Writable(l.schema, rows) {
      var recs := ToRecords(l.schema, rows).value;
      CommittedExchanged(l.(live := l.live + recs, stored := l.stored + recs, files := l.files + 1),
                         k.(live := k.live + recs, stored := k.stored + recs, files := k.files + 1), n, "append", |recs|, 0, 0);
    }
  }

  lemma RewriteExchanged(l: Logical, k: Logical, n: nat)
    requires Exchanged(l, k, n)
    ensures StepRewrite(l).Ok? && StepRewrite(k).Ok?
    ensures Exchanged(StepRewrite(l).value, StepRewrite(k).value, n)
  {
    hide Committed;
    SameBagMembers(l.live, k.live);
    SameBagMembers(l.stored, k.stored);
    CommittedExchanged(l.(stored := l.live, files := 1), k.(stored := k.live, files := 1), n, "replace", |l.live|, |l.stored|, 0);
  }

  lemma EvolveExchanged(l: Logical, k: Logical, n: nat, changes: seq<Promotion>)
    requires Exchanged(l, k, n)
    ensures StepEvolve(l, changes).Ok? <==> StepEvolve(k, changes).Ok?
    ensures StepEvolve(l, changes).Ok? ==> Exchanged(StepEvolve(l, changes).value, StepEvolve(k, changes).value, n)
  {
    hide ApplyPromotions, Map, Project, PositionalLabels;
    if ApplyPromotions(l.schema, l.authored, changes).Ok? {
      var s := ApplyPromotions(l.schema, l.authored, changes).value;
      MapBag(Project(s), l.live, k.live);
      MapBag(Project(s), l.stored, k.stored);
    }
  }

  lemma ObserveExchanged(l: Logical, k: Logical, n: nat, at: At, bind: Option<string>)
    requires Invariant(l) && Invariant(k) && Exchanged(l, k, n)
    ensures StepObserve(l, at, bind).Ok? <==> StepObserve(k, at, bind).Ok?
    ensures StepObserve(l, at, bind).Ok? ==>
              Exchanged(StepObserve(l, at, bind).value, StepObserve(k, at, bind).value, n)
  {
    hide Invariant, SchemaFields, Map, StepObserve, EmitsAt;
    ObserveInvariant(l, at, bind);
    ObserveInvariant(k, at, bind);
  }

  lemma StepExchanged(l: Logical, k: Logical, n: nat, idx: nat, e: Entry)
    requires Invariant(l) && Invariant(k) && Exchanged(l, k, n)
    ensures Step(l, idx, e).Ok? <==> Step(k, idx, e).Ok?
    ensures Step(l, idx, e).Ok? ==> Exchanged(Step(l, idx, e).value, Step(k, idx, e).value, n)
  {
    hide StepDelete, StepAppend, StepEvolve, StepObserve, StepRewrite, Invariant, Exchanged;
    match e
    case Append(rows) => AppendExchanged(l, k, n, rows);
    case Delete(kind, pred) => DeleteExchanged(l, k, n, idx, kind, pred);
    case Evolve(changes) => EvolveExchanged(l, k, n, changes);
    case Observe(at, bind) => ObserveExchanged(l, k, n, at, bind);
    case Rewrite => RewriteExchanged(l, k, n);
    case OtherOp(_) =>
  }

  predicate Writable(s: Schema, rows: seq<RowIn>) {
    ToRecords(s, rows).Ok? && WriteProblem(s, ToRecords(s, rows).value) == None
  }

  function Records(s: Schema, rows: seq<RowIn>): seq<Record> {
    if ToRecords(s, rows).Ok? then ToRecords(s, rows).value else []
  }

  /** The commit of one append. */
  function Appended(l: Logical, recs: seq<Record>): Logical {
    Committed(l.(live := l.live + recs, stored := l.stored + recs, files := l.files + 1), "append", |recs|, 0, 0)
  }

  lemma AppendOnce(l: Logical, i: nat, rows: seq<RowIn>)
    ensures Step(l, i, Append(rows)).Ok? <==> Writable(l.schema, rows)
    ensures Writable(l.schema, rows) ==> Step(l, i, Append(rows)) == Ok(Appended(l, Records(l.schema, rows)))
  {
    hide Committed, ToRecords, WriteProblem;
  }

  lemma TwoAppends(l: Logical, i: nat, a: seq<RowIn>, b: seq<RowIn>)
    ensures Resume(l, i, [Append(a), Append(b)]).Ok? <==> Writable(l.schema, a) && Writable(l.schema, b)
    ensures Writable(l.schema, a) && Writable(l.schema, b) ==>
              Resume(l, i, [Append(a), Append(b)]) ==
                Ok(Appended(Appended(l, Records(l.schema, a)), Records(l.schema, b)))
  {
    hide Step, Writable, Records, Resume;
    ResumePair(l, i, Append(a), Append(b));
    AppendOnce(l, i, a);
    if Writable(l.schema, a) {
      AppendOnce(Appended(l, Records(l.schema, a)), i + 1, b);
    }
  }

  /** The two commits of a pair, and what they leave alone. */
  lemma PairCommits(l: Logical, x: seq<Record>, y: seq<Record>)
    ensures var k, n := Appended(Appended(l, x), y), |l.commits|;
            && |k.commits| == n + 2 && l.commits <= k.commits
            && k.commits[n].schema == k.commits[n + 1].schema == l.schema && k.commits[n + 1].rows == k.live
            && k.commits[n].out == SnapshotOut(n, ParentOf(n), "append", SummaryOf(|l.stored| + |x|, |x|, 0, l.deletes), [])
            && k.commits[n + 1].out ==
                 SnapshotOut(n + 1, ParentOf(n + 1), "append", SummaryOf(|l.stored| + |x| + |y|, |y|, 0, l.deletes), [])
            && k == l.(live := l.live + x + y, stored := l.stored + x + y, files := l.files + 2, commits := k.commits)
  {
  }

  lemma PairOfRecords(l: Logical, x: seq<Record>, y: seq<Record>)
    requires Invariant(l)
    ensures Exchanged(Appended(Appended(l, x), y), Appended(Appended(l, y), x), |l.commits|)
  {
    PairCommits(l, x, y);
    PairCommits(l, y, x);
    var k, m, n := Appended(Appended(l, x), y), Appended(Appended(l, y), x), |l.commits|;
    hide Appended;
    assert multiset(l.live + x + y) == multiset(l.live + y + x);
    assert multiset(l.stored + x + y) == multiset(l.stored + y + x);
    forall j | 0 <= j < n + 2 ensures CommitExchanged(k.commits[j], m.commits[j], j, n) {
      if j < n {
        assert k.commits[j] == l.commits[j] && m.commits[j] == l.commits[j];
      }
    }
  }

  /** Both orders succeed or neither does, and they part only in the rows between the two commits. */
  lemma PairExchanged(l: Logical, i: nat, a: seq<RowIn>, b: seq<RowIn>)
    requires Invariant(l)
    ensures Resume(l, i, [Append(a), Append(b)]).Ok? <==> Resume(l, i, [Append(b), Append(a)]).Ok?
    ensures Resume(l, i, [Append(a), Append(b)]).Ok? ==>
              var k, m := Resume(l, i, [Append(a), Append(b)]).value, Resume(l, i, [Append(b), Append(a)]).value;
              && Exchanged(k, m, |l.commits|) && k.observations == m.observations
              && (SameSnapshots(k.commits, m.commits) <==> |a| == |b|)
  {
    TwoAppends(l, i, a, b);
    TwoAppends(l, i, b, a);
    if Writable(l.schema, a) && Writable(l.schema, b) {
      var x, y := Records(l.schema, a), Records(l.schema, b);
      hide Resume, Invariant, Appended, Writable, ToRecords, Exchanged, SameSnapshots;
      PairOfRecords(l, x, y);
      PairCounts(l, x, y);
    }
  }

  /** The two orders emit the same snapshots exactly when they add as many records. */
  lemma PairCounts(l: Logical, x: seq<Record>, y: seq<Record>)
    requires Invariant(l)
    ensures var k, m := Appended(Appended(l, x), y), Appended(Appended(l, y), x);
            && k.observations == m.observations == l.observations
            && (SameSnapshots(k.commits, m.commits) <==> |x| == |y|)
  {
    PairOfRecords(l, x, y);
    PairCommits(l, x, y);
    PairCommits(l, y, x);
    hide Appended, Exchanged, SameSnapshots, Invariant;
    PairSnapshots(Appended(Appended(l, x), y), Appended(Appended(l, y), x), |l.commits|);
  }

  /** What is emitted for each commit. */
  predicate SameSnapshots(a: seq<Commit>, b: seq<Commit>) {
    |a| == |b| && forall j :: 0 <= j < |a| ==> a[j].out == b[j].out
  }

  /** Exchanged states emit the same snapshots exactly when the two commits do. */
  lemma PairSnapshots(l: Logical, k: Logical, n: nat)
    requires Exchanged(l, k, n)
    ensures SameSnapshots(l.commits, k.commits) <==>
            l.commits[n].out == k.commits[n].out && l.commits[n + 1].out == k.commits[n + 1].out
  {
    if l.commits[n].out == k.commits[n].out && l.commits[n + 1].out == k.commits[n + 1].out {
      forall j | 0 <= j < |l.commits| ensures l.commits[j].out == k.commits[j].out {
        assert CommitExchanged(l.commits[j], k.commits[j], j, n);
      }
    }
  }

  lemma ResumeOne(l: Logical, i: nat, e: Entry)
    ensures Resume(l, i, [e]) == Step(l, i, e)
  {
    hide Step;
    assert [e][1..] == [];
    if Step(l, i, e).Ok? {
      assert Resume(Step(l, i, e).value, i + 1, []) == Step(l, i, e);
    }
  }

  lemma ResumePair(l: Logical, i: nat, d: Entry, e: Entry)
    ensures Resume(l, i, [d, e]) == if Step(l, i, d).Ok? then Step(Step(l, i, d).value, i + 1, e) else Step(l, i, d)
  {
    hide Step;
    var pair := [d, e];
    assert pair[1..] == [e];
    if Step(l, i, d).Ok? {
      ResumeOne(Step(l, i, d).value, i + 1, e);
    }
  }

  /** No entry reads commit `n` by its ordinal. */
  predicate NeverReads(entries: seq<Entry>, n: nat) {
    forall i :: 0 <= i < |entries| && entries[i].Observe? ==> entries[i].at != Ordinal(n)
  }

  /** States that part as exchanged ones do, and have emitted alike: what a log goes on from. */
  ghost predicate Alongside(l: Logical, k: Logical, n: nat, unread: bool) {
    && Invariant(l) && Invariant(k) && Exchanged(l, k, n)
    && (unread ==> SameObservations(l.observations, k.observations))
  }

  lemma StepAlongside(l: Logical, k: Logical, n: nat, idx: nat, e: Entry, unread: bool)
    requires Alongside(l, k, n, unread) && PairPresentIn(l, k, n) && (unread && e.Observe? ==> e.at != Ordinal(n))
    ensures Step(l, idx, e).Ok? <==> Step(k, idx, e).Ok?
    ensures Step(l, idx, e).Ok? ==>
              var x, y := Step(l, idx, e).value, Step(k, idx, e).value;
              && Alongside(x, y, n, unread) && PairPresentIn(x, y, n)
              && x.commits[n] == l.commits[n] && x.commits[n + 1] == l.commits[n + 1]
              && y.commits[n] == k.commits[n] && y.commits[n + 1] == k.commits[n + 1]
  {
    hide Invariant, Exchanged, Step, SameObservations;
    StepExchanged(l, k, n, idx, e);
    if Step(l, idx, e).Ok? {
      StepInvariant(l, idx, e);
      StepInvariant(k, idx, e);
      if unread {
        StepSeen(l, k, n, idx, e);
      }
    }
  }

  predicate PairPresentIn(l: Logical, k: Logical, n: nat) {
    n + 1 < |l.commits| && n + 1 < |k.commits|
  }

  lemma PairPresent(l: Logical, k: Logical, n: nat)
    requires Exchanged(l, k, n)
    ensures PairPresentIn(l, k, n)
  {
  }

  lemma StepSeen(l: Logical, k: Logical, n: nat, idx: nat, e: Entry)
    requires Invariant(l) && Invariant(k) && Exchanged(l, k, n) && SameObservations(l.observations, k.observations)
    requires Step(l, idx, e).Ok? && Step(k, idx, e).Ok? && (e.Observe? ==> e.at != Ordinal(n))
    ensures SameObservations(Step(l, idx, e).value.observations, Step(k, idx, e).value.observations)
  {
    hide Invariant, StepDelete, StepAppend, StepEvolve, StepRewrite, StepObserve;
    if e.Observe? {
      ObserveSeen(l, k, n, e.at, e.bind);
    } else {
      NothingSeen(l, idx, e);
      NothingSeen(k, idx, e);
    }
  }

  lemma NothingSeen(l: Logical, idx: nat, e: Entry)
    requires Step(l, idx, e).Ok? && !e.Observe?
    ensures Step(l, idx, e).value.observations == l.observations
  {
  }

  lemma ObserveSeen(l: Logical, k: Logical, n: nat, at: At, bind: Option<string>)
    requires Invariant(l) && Invariant(k) && Exchanged(l, k, n) && SameObservations(l.observations, k.observations)
    requires StepObserve(l, at, bind).Ok? && StepObserve(k, at, bind).Ok? && at != Ordinal(n)
    ensures SameObservations(StepObserve(l, at, bind).value.observations, StepObserve(k, at, bind).value.observations)
  {
    ObserveEmits(l, at, bind);
    ObserveEmits(k, at, bind);
    ExchangeUnseen(l, k, n, at, bind);
    OnlyOrdinalReads(l, k, n, at);
    hide Invariant, StepObserve, Shown, Exchanged, ObserveSource;
  }

  lemma ObserveEmits(l: Logical, at: At, bind: Option<string>)
    requires Invariant(l) && StepObserve(l, at, bind).Ok?
    ensures Shown(l, at, bind).Some? && ObserveSource(l, at).Ok?
    ensures StepObserve(l, at, bind).value.observations == l.observations + [Shown(l, at, bind).value]
  {
    hide Invariant, SchemaFields, Map;
  }

  /** Only the ordinal itself reads commit `n`. */
  lemma OnlyOrdinalReads(l: Logical, k: Logical, n: nat, at: At)
    requires Exchanged(l, k, n) && at != Ordinal(n)
    ensures ObserveSource(l, at) == ObserveSource(k, at) != Ok(Some(n))
  {
  }

  /** The log goes on the same way from both orders, whatever follows. */
  lemma {:induction false} ResumeAlongside(l: Logical, k: Logical, n: nat, idx: nat, back: seq<Entry>, unread: bool)
    requires Alongside(l, k, n, unread) && PairPresentIn(l, k, n) && (unread ==> NeverReads(back, n))
    ensures Resume(l, idx, back).Ok? <==> Resume(k, idx, back).Ok?
    ensures Resume(l, idx, back).Ok? ==>
              var x, y := Resume(l, idx, back).value, Resume(k, idx, back).value;
              && Alongside(x, y, n, unread) && PairPresentIn(x, y, n)
              && x.commits[n] == l.commits[n] && x.commits[n + 1] == l.commits[n + 1]
              && y.commits[n] == k.commits[n] && y.commits[n + 1] == k.commits[n + 1]
    decreases back
  {
    hide Alongside, Step;
    if back != [] {
      StepAlongside(l, k, n, idx, back[0], unread);
      assert forall i :: 0 <= i < |back[1..]| ==> back[1..][i] == back[i + 1];
      if Step(l, idx, back[0]).Ok? {
        ResumeAlongside(Step(l, idx, back[0]).value, Step(k, idx, back[0]).value, n, idx + 1, back[1..], unread);
      }
    }
  }

  lemma ResumeSplit(l: Logical, idx: nat, front: seq<Entry>, back: seq<Entry>)
    ensures Resume(l, idx, front + back) ==
              if Resume(l, idx, front).Ok? then Resume(Resume(l, idx, front).value, idx + |front|, back)
              else Resume(l, idx, front)
    decreases front
  {
    hide Step;
    if front == [] {
      assert front + back == back;
    } else {
      assert (front + back)[0] == front[0] && (front + back)[1..] == front[1..] + back;
      if Step(l, idx, front[0]).Ok? {
        ResumeSplit(Step(l, idx, front[0]).value, idx + 1, front[1..], back);
      }
    }
  }

  /**
   Two adjacent appends may be exchanged anywhere in a log: the exchanged log succeeds exactly when
   the log does, and then holds the same rows, binds and counts as bags, but for commit `n`, the one
   between the two. Unless a later entry reads that commit by its ordinal the two runs emit the same
   observations; and they emit the same snapshots exactly when the two appends have as many rows.
   */
  lemma AppendsCommute(h: Header, front: seq<Entry>, a: seq<RowIn>, b: seq<RowIn>, back: seq<Entry>)
    ensures var x, y := Run(h, front + ([Append(a), Append(b)] + back)), Run(h, front + ([Append(b), Append(a)] + back));
            && (x.Ok? <==> y.Ok?)
            && (x.Ok? ==>
                  && Run(h, front).Ok?
                  && var n := |Run(h, front).value.commits|;
                     && Exchanged(x.value, y.value, n)
                     && (NeverReads(back, n) ==> SameObservations(x.value.observations, y.value.observations))
                     && (SameSnapshots(x.value.commits, y.value.commits) <==> |a| == |b|))
  {
    hide Run;
    RunSplit(h, front, [Append(a), Append(b)] + back);
    RunSplit(h, front, [Append(b), Append(a)] + back);
    if Run(h, front).Ok? {
      var l := Run(h, front).value;
      RunInvariant(h, front);
      ResumesCommute(l, |front|, a, b, back);
    }
  }

  lemma ResumesCommute(l: Logical, i: nat, a: seq<RowIn>, b: seq<RowIn>, back: seq<Entry>)
    requires Invariant(l)
    ensures var x, y := Resume(l, i, [Append(a), Append(b)] + back), Resume(l, i, [Append(b), Append(a)] + back);
            && (x.Ok? <==> y.Ok?)
            && (x.Ok? ==>
                  && Exchanged(x.value, y.value, |l.commits|)
                  && (NeverReads(back, |l.commits|) ==> SameObservations(x.value.observations, y.value.observations))
                  && (SameSnapshots(x.value.commits, y.value.commits) <==> |a| == |b|))
  {
    hide Resume, Invariant, Exchanged, SameSnapshots, NeverReads, SameObservations;
    ResumeSplit(l, i, [Append(a), Append(b)], back);
    ResumeSplit(l, i, [Append(b), Append(a)], back);
    PairExchanged(l, i, a, b);
    if Resume(l, i, [Append(a), Append(b)]).Ok? {
      ResumeInvariant(l, i, [Append(a), Append(b)]);
      ResumeInvariant(l, i, [Append(b), Append(a)]);
      var k, m, n := Resume(l, i, [Append(a), Append(b)]).value, Resume(l, i, [Append(b), Append(a)]).value, |l.commits|;
      SeenByItself(k.observations);
      PairPresent(k, m, n);
      PairSnapshots(k, m, n);
      ResumeAlongside(k, m, n, i + 2, back, NeverReads(back, n));
      if Resume(k, i + 2, back).Ok? {
        PairSnapshots(Resume(k, i + 2, back).value, Resume(m, i + 2, back).value, n);
      }
    }
  }

  lemma SeenByItself(a: seq<Observation>)
    ensures SameObservations(a, a)
  {
  }

  lemma {:induction false} ResumeInvariant(l: Logical, idx: nat, back: seq<Entry>)
    requires Invariant(l) && Resume(l, idx, back).Ok?
    ensures Invariant(Resume(l, idx, back).value)
    decreases back
  {
    hide Invariant, Step;
    if back != [] {
      StepInvariant(l, idx, back[0]);
      ResumeInvariant(Step(l, idx, back[0]).value, idx + 1, back[1..]);
    }
  }

  /** Nothing but a read of commit `n` tells exchanged states apart: same point, schema and bag of rows. */
  lemma ExchangeUnseen(l: Logical, k: Logical, n: nat, at: At, bind: Option<string>)
    requires Invariant(l) && Invariant(k) && Exchanged(l, k, n)
    ensures Shown(l, at, bind).Some? <==> Shown(k, at, bind).Some?
    ensures Shown(l, at, bind).Some? && ObserveSource(l, at) != Ok(Some(n)) ==>
              var x, y := Shown(l, at, bind).value, Shown(k, at, bind).value;
              x.at == y.at && x.bind == y.bind && x.icebergSchema == y.icebergSchema && SameBag(x.decodedRows, y.decodedRows)
  {
    ObserveShown(l, at, bind);
    ObserveShown(k, at, bind);
    SourceExchanged(l, k, n, at);
    hide Exchanged, Invariant, Shown, SourceSchema, SourceRows, ObserveSource, SchemaFields, Map, AtEcho;
    if ObserveSource(l, at).Ok? && ObserveSource(l, at).value != Some(n) {
      var source := ObserveSource(l, at).value;
      MapBag(Decoder(SourceSchema(l, source), l.labels), SourceRows(l, source), SourceRows(k, source));
    }
  }

  lemma ObserveShown(l: Logical, at: At, bind: Option<string>)
    requires Invariant(l)
    ensures Shown(l, at, bind).Some? <==> ObserveSource(l, at).Ok?
    ensures Shown(l, at, bind).Some? ==>
              var obs, source := Shown(l, at, bind).value, ObserveSource(l, at).value;
              obs.at == AtEcho(at, bind) && obs.bind == bind && EmitsAt(l, SourceSchema(l, source), SourceRows(l, source), obs)
  {
    hide Invariant, StepObserve, EmitsAt, ObserveSource;
    ObserveInvariant(l, at, bind);
  }

  lemma SourceExchanged(l: Logical, k: Logical, n: nat, at: At)
    requires Exchanged(l, k, n)
    ensures ObserveSource(l, at) == ObserveSource(k, at) && l.labels == k.labels
    ensures ObserveSource(l, at).Ok? ==>
              var source := ObserveSource(l, at).value;
              && SourceSchema(l, source) == SourceSchema(k, source)
              && (source != Some(n) ==> SameBag(SourceRows(l, source), SourceRows(k, source)))
  {
  }

  /** The two orders show the same at latest, as a bag of rows. */
  lemma LatestUnmoved(h: Header, front: seq<Entry>, a: seq<RowIn>, b: seq<RowIn>, back: seq<Entry>, bind: Option<string>)
    requires Run(h, front + ([Append(a), Append(b)] + back)).Ok?
    ensures Run(h, front + ([Append(b), Append(a)] + back)).Ok?
    ensures var l, k := Run(h, front + ([Append(a), Append(b)] + back)).value, Run(h, front + ([Append(b), Append(a)] + back)).value;
            var x, y := Shown(l, Named("latest"), bind), Shown(k, Named("latest"), bind);
            && x.Some? && y.Some? && x.value.icebergSchema == y.value.icebergSchema
            && SameBag(x.value.decodedRows, y.value.decodedRows)
  {
    hide Step, Exchanged, Invariant, Run, StepObserve, Shown;
    AppendsCommute(h, front, a, b, back);
    var l, k := Run(h, front + ([Append(a), Append(b)] + back)).value, Run(h, front + ([Append(b), Append(a)] + back)).value;
    RunInvariant(h, front + ([Append(a), Append(b)] + back));
    RunInvariant(h, front + ([Append(b), Append(a)] + back));
    ExchangeUnseen(l, k, |Run(h, front).value.commits|, Named("latest"), bind);
    LatestShows(l, bind);
  }

  lemma LatestShows(l: Logical, bind: Option<string>)
    requires Invariant(l)
    ensures Shown(l, Named("latest"), bind).Some?
  {
    hide Invariant, SchemaFields;
    ObserveInvariant(l, Named("latest"), bind);
  }
}
