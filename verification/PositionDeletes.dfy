/** `PositionDeletes.java`: from a predicate to file positions, by scanning the raw files. */
module PositionDeletes {
  import opened Wrappers
  import opened Seqs
  import opened Values
  import opened Predicates
  import opened Layout
  import opened Replay
  import opened ReplayLaws
  import opened Tables

  /** The positions below `n` whose row, read under the schema, matches. */
  function MatchRefs(f: DataFile, s: Schema, m: Matcher, n: nat): seq<PosRef>
    requires n <= |f.rows|
  {
    if n == 0 then []
    else MatchRefs(f, s, m, n - 1) +
         (if Matches(m, Project(s)(f.rows[n - 1])) then [PosRef(f.path, n - 1)] else [])
  }

  function MatchRefsOf(files: seq<DataFile>, s: Schema, m: Matcher): seq<PosRef> {
    if files == [] then []
    else MatchRefsOf(files[..|files| - 1], s, m) + MatchRefs(files[|files| - 1], s, m, |files[|files| - 1].rows|)
  }

  lemma {:induction false} MatchRefsIn(f: DataFile, s: Schema, m: Matcher, n: nat, ref: PosRef)
    requires n <= |f.rows|
    ensures ref in MatchRefs(f, s, m, n) <==>
            ref.path == f.path && ref.pos < n && Matches(m, Project(s)(f.rows[ref.pos]))
  {
    if n > 0 {
      hide Matches, Project;
      MatchRefsIn(f, s, m, n - 1, ref);
    }
  }

  lemma {:induction false} MatchRefsOfIn(files: seq<DataFile>, s: Schema, m: Matcher, ref: PosRef)
    ensures ref in MatchRefsOf(files, s, m) <==>
            exists i :: 0 <= i < |files| && ref in MatchRefs(files[i], s, m, |files[i].rows|)
  {
    hide MatchRefs;
    if files != [] {
      var front, last := files[..|files| - 1], files[|files| - 1];
      MatchRefsOfIn(front, s, m, ref);
      if ref in MatchRefsOf(front, s, m) {
        var i :| 0 <= i < |front| && ref in MatchRefs(front[i], s, m, |front[i].rows|);
        assert files[i] == front[i];
      }
      if exists i :: 0 <= i < |files| && ref in MatchRefs(files[i], s, m, |files[i].rows|) {
        var i :| 0 <= i < |files| && ref in MatchRefs(files[i], s, m, |files[i].rows|);
        assert i < |front| ==> front[i] == files[i];
      }
    }
  }

  /** The scan plan promises the files of the snapshot, in no particular order. */
  method PlanFiles(files: seq<DataFile>) returns (plan: seq<DataFile>)
    ensures SameBag(files, plan)
  {
    plan := files;
  }

  /** `collectPositions`: extend `out` with the matching positions of one raw file. */
  method CollectPositions(f: DataFile, s: Schema, m: Matcher, out: seq<PosRef>) returns (refs: seq<PosRef>)
    ensures refs == out + MatchRefs(f, s, m, |f.rows|)
  {
    hide Matches, Project;
    refs := out;
    var pos := 0;
    while pos < |f.rows|
      invariant 0 <= pos <= |f.rows|
      invariant refs == out + MatchRefs(f, s, m, pos)
    {
      if Matches(m, Project(s)(f.rows[pos])) {
        refs := refs + [PosRef(f.path, pos)];
      }
      pos := pos + 1;
    }
  }

  lemma {:induction false} SamePath(files: seq<DataFile>, f: DataFile, g: DataFile)
    requires DistinctPaths(files) && f in files && g in files && f.path == g.path
    ensures f == g
  {
  }

  /** The positions gathered over any plan list every match of the files, and nothing else. */
  lemma PlanListsMatches(files: seq<DataFile>, plan: seq<DataFile>, s: Schema, m: Matcher, d: DeleteFile)
    requires SameBag(files, plan) && DistinctPaths(files)
    requires d.refs == MatchRefsOf(plan, s, m)
    ensures ListsMatches(d, files, s, TestOf(m))
    ensures d.refs == [] <==> !SomeMatch(files, s, m)
    ensures forall ref :: ref in d.refs ==> exists i :: 0 <= i < |files| && files[i].path == ref.path
  {
    forall i, pos | 0 <= i < |files| && 0 <= pos < |files[i].rows|
      ensures PosRef(files[i].path, pos) in d.refs <==> Matches(m, Project(s)(files[i].rows[pos]))
    {
      RefListed(files, plan, s, m, i, pos);
    }
    hide MatchRefsOf, SameBag, Project, Matches, DistinctPaths;
    SomeListed(files, plan, s, m, d.refs);
    forall ref | ref in d.refs ensures exists i :: 0 <= i < |files| && files[i].path == ref.path {
      var i := ListedMatches(files, plan, s, m, ref);
    }
  }

  /** A position is listed exactly when some row matches. */
  lemma SomeListed(files: seq<DataFile>, plan: seq<DataFile>, s: Schema, m: Matcher, refs: seq<PosRef>)
    requires SameBag(files, plan) && DistinctPaths(files) && refs == MatchRefsOf(plan, s, m)
    ensures refs == [] <==> !SomeMatch(files, s, m)
  {
    hide MatchRefsOf, SameBag, Project, Matches, DistinctPaths;
    if refs != [] {
      assert refs[0] in refs;
      var i := ListedMatches(files, plan, s, m, refs[0]);
    }
    if SomeMatch(files, s, m) {
      var i, pos :| 0 <= i < |files| && 0 <= pos < |files[i].rows| && Matches(m, Project(s)(files[i].rows[pos]));
      RefListed(files, plan, s, m, i, pos);
    }
  }

  /** A listed position is a matching row of a file. */
  lemma ListedMatches(files: seq<DataFile>, plan: seq<DataFile>, s: Schema, m: Matcher, ref: PosRef) returns (i: nat)
    requires SameBag(files, plan) && ref in MatchRefsOf(plan, s, m)
    ensures i < |files| && files[i].path == ref.path && ref.pos < |files[i].rows|
    ensures Matches(m, Project(s)(files[i].rows[ref.pos]))
  {
    SameBagMembers(files, plan);
    MatchRefsOfIn(plan, s, m, ref);
    var j :| 0 <= j < |plan| && ref in MatchRefs(plan[j], s, m, |plan[j].rows|);
    MatchRefsIn(plan[j], s, m, |plan[j].rows|, ref);
    assert plan[j] in files;
    i :| 0 <= i < |files| && files[i] == plan[j];
  }

  lemma RefListed(files: seq<DataFile>, plan: seq<DataFile>, s: Schema, m: Matcher, i: nat, pos: nat)
    requires SameBag(files, plan) && DistinctPaths(files)
    requires i < |files| && pos < |files[i].rows|
    ensures PosRef(files[i].path, pos) in MatchRefsOf(plan, s, m) <==> Matches(m, Project(s)(files[i].rows[pos]))
  {
    var ref := PosRef(files[i].path, pos);
    SameBagMembers(files, plan);
    MatchRefsOfIn(plan, s, m, ref);
    assert files[i] in plan;
    var j :| 0 <= j < |plan| && plan[j] == files[i];
    MatchRefsIn(plan[j], s, m, |plan[j].rows|, ref);
    if ref in MatchRefsOf(plan, s, m) {
      var k :| 0 <= k < |plan| && ref in MatchRefs(plan[k], s, m, |plan[k].rows|);
      MatchRefsIn(plan[k], s, m, |plan[k].rows|, ref);
      assert plan[k] in files;
      SamePath(files, plan[k], files[i]);
    }
  }

  /**
   `deleteByPredicate`: list the matches of every planned file and commit them as one
   position-delete file; commit nothing when the list is empty.
   */
  method DeleteByPredicate(t: Table, pred: Pred, id: int, ghost l: Logical)
    returns (t': Table, err: Option<RunError>)
    requires Refines(t, l) && Invariant(l) && FreshId(t, id)
    ensures match MatcherOf(pred, l.schema) {
              case Err(p) => err == Some(Failure(p))
              case Ok(m) =>
                if !AnyMatch(m, l.stored) then err == None && t' == t
                else if l.version < 2 then err == Some(Failure(CommitRejected))
                else
                  && err == None && |t'.snapshots| == |t.snapshots| + 1
                  && t'.snapshots[..|t.snapshots|] == t.snapshots && t'.snapshots[|t.snapshots|].id == id
                  && CurrentFiles(t') == CurrentFiles(t)
                  && Refines(t', Committed(l.(live := Filter(Survives(m), l.live), deletes := l.deletes + 1),
                                           "delete", 0, 0, 1))
            }
  {
    hide MatchRefs, Matches, Project, Filter, Committed, Invariant, ListsMatches, SomeMatch, AnyMatch;
    t', err := t, None;
    var s := CurrentSchema(t);
    var compiled := MatcherOf(pred, s);
    if compiled.Err? {
      err := Some(Failure(compiled.error));
      return;
    }
    var m := compiled.value;
    var toDelete: seq<PosRef> := [];
    var plan := PlanFiles(CurrentFiles(t));
    var i := 0;
    while i < |plan|
      invariant 0 <= i <= |plan|
      invariant toDelete == MatchRefsOf(plan[..i], s, m)
    {
      assert plan[..i + 1][..i] == plan[..i];
      toDelete := CollectPositions(plan[i], s, m, toDelete);
      i := i + 1;
    }
    assert plan[..i] == plan;
    var d := DeleteFile(toDelete, NextSeqNo(t));
    CurrentBounds(t);
    PlanListsMatches(CurrentFiles(t), plan, s, m, d);
    SomeMatchIsStored(CurrentFiles(t), s, m, l.stored);
    if toDelete == [] {
      return;
    }
    if t.version < 2 {
      err := Some(Failure(CommitRejected));
      return;
    }
    RowDeltaRefines(t, l, id, m, d);
    t' := CommitRowDelta(t, id, d);
  }
}
