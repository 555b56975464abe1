/**
 When the Go lowering and the Java matcher agree, by column type. Comparing equal is being equal on
 every column but a decimal one, where 1.5 and 1.50 compare equal and are not; so the two readings
 can part in an in-list over a decimal column, and exactly when a literal of a value the column can
 hold is not also listed in the column's own scale.
 */
module LoweringLaws {
  import opened Wrappers
  import opened Values
  import opened Predicates
  import opened Numerals
  import opened Replay
  import opened ReplayLaws
  import Seqs
  import DecodeLaws

  // ----- values

  /** On every column but a decimal one, values compare equal exactly when they are equal. */
  lemma CompareTells(ty: PType, v: Value, w: Value)
    requires HasType(ty, v) && HasType(ty, w) && !ty.TDecimal?
    ensures Compare(v, w) == 0 <==> v == w
  {
    CompareReflexive(v);
    match (v, w)
    case (FloatV(x), FloatV(y)) => if Compare(v, w) == 0 { NormalUnique(x, y); }
    case (DoubleV(x), DoubleV(y)) => if Compare(v, w) == 0 { NormalUnique(x, y); }
    case _ =>
  }

  // ----- decimals

  /** The numeral a decimal column holds for the value of `w`, if it can hold it. */
  function InColumn(w: Numeral, precision: nat, scale: nat): Option<Numeral> {
    var up := if w.scale <= scale then Pow10(scale - w.scale) else 1;
    var down := if w.scale <= scale then 1 else Pow10(w.scale - scale);
    if down == 0 || w.unscaled % down != 0 then None
    else
      var x := Numeral(w.unscaled * up / down, scale);
      if FitsDecimal(x, precision, scale) then Some(x) else None
  }

  lemma InColumnExact(w: Numeral, x: Numeral, precision: nat, scale: nat)
    requires FitsDecimal(x, precision, scale)
    ensures CompareNumeral(w, x) == 0 <==> InColumn(w, precision, scale) == Some(x)
  {
    if w.scale <= scale {
      SameValueScaled(w, x);
    } else {
      SameValueScaled(x, w);
      PowPositive(w.scale - scale);
      ExactQuotient(w.unscaled, Pow10(w.scale - scale), x.unscaled);
    }
  }

  /** Every literal the column can hold is also listed as the column holds it. */
  predicate Covered(wants: seq<Value>, precision: nat, scale: nat) {
    forall i :: 0 <= i < |wants| && wants[i].DecV? && InColumn(wants[i].x, precision, scale).Some? ==>
      ContainsEqual(wants, DecV(InColumn(wants[i].x, precision, scale).value))
  }

  /** The two set tests agree on every value of a decimal column exactly when its list is covered. */
  lemma DecimalListExact(wants: seq<Value>, precision: nat, scale: nat)
    requires forall i :: 0 <= i < |wants| ==> wants[i].DecV?
    ensures (forall x: Numeral :: FitsDecimal(x, precision, scale) ==>
               (ContainsValue(wants, DecV(x)) <==> ContainsEqual(wants, DecV(x)))) <==>
            Covered(wants, precision, scale)
  {
    hide FitsDecimal, CompareNumeral, InColumn;
    if Covered(wants, precision, scale) {
      forall x: Numeral | FitsDecimal(x, precision, scale)
        ensures ContainsValue(wants, DecV(x)) <==> ContainsEqual(wants, DecV(x))
      {
        CoveredAt(wants, precision, scale, x);
      }
    } else {
      var i :| 0 <= i < |wants| && wants[i].DecV? && InColumn(wants[i].x, precision, scale).Some?
               && !ContainsEqual(wants, DecV(InColumn(wants[i].x, precision, scale).value));
      var x := InColumn(wants[i].x, precision, scale).value;
      InColumnFits(wants[i].x, precision, scale);
      InColumnExact(wants[i].x, x, precision, scale);
      assert Compare(wants[i], DecV(x)) == 0;
      assert ContainsValue(wants, DecV(x));
    }
  }

  lemma InColumnFits(w: Numeral, precision: nat, scale: nat)
    requires InColumn(w, precision, scale).Some?
    ensures FitsDecimal(InColumn(w, precision, scale).value, precision, scale)
  {
  }

  lemma CoveredAt(wants: seq<Value>, precision: nat, scale: nat, x: Numeral)
    requires forall i :: 0 <= i < |wants| ==> wants[i].DecV?
    requires Covered(wants, precision, scale) && FitsDecimal(x, precision, scale)
    ensures ContainsValue(wants, DecV(x)) <==> ContainsEqual(wants, DecV(x))
  {
    if ContainsValue(wants, DecV(x)) {
      var i :| 0 <= i < |wants| && Compare(wants[i], DecV(x)) == 0;
      InColumnExact(wants[i].x, x, precision, scale);
    }
    if ContainsEqual(wants, DecV(x)) {
      CompareReflexive(DecV(x));
    }
  }

  // ----- predicates over records

  /** Typed, and no decimal is more than its column holds: what a file can hold of these columns. */
  predicate Storable(s: Schema, r: Record) {
    Typed(s, r) && forall i :: 0 <= i < |s| && s[i].name in r ==> ColumnProblem(s[i], r) == None
  }

  lemma WritableIsStorable(s: Schema, r: Record)
    requires Typed(s, r) && RecordProblem(s, r) == None
    ensures Storable(s, r)
  {
    RecordProblemAt(s, r);
  }

  lemma DecimalFits(s: Schema, r: Record, n: string)
    requires Storable(s, r) && n in r && TypeOf(s, n).Some? && TypeOf(s, n).value.TDecimal?
    ensures r[n].DecV? && FitsDecimal(r[n].x, TypeOf(s, n).value.precision, TypeOf(s, n).value.scale)
  {
    var i := ColumnOf(s, n);
    assert ColumnProblem(s[i], r) == None;
  }

  /** No in-list over a decimal column is uncovered. */
  predicate ListsCovered(p: Pred, s: Schema) {
    && (p.kind == "in" || p.kind == "not-in" ==>
          TypeOf(s, p.term).Some? && TypeOf(s, p.term).value.TDecimal? && JavaTerms(s, p.term, p.values).Ok? ==>
            Covered(JavaTerms(s, p.term, p.values).value, TypeOf(s, p.term).value.precision, TypeOf(s, p.term).value.scale))
    && (p.kind == "and" || p.kind == "or" ==> forall i :: 0 <= i < |p.args| ==> ListsCovered(p.args[i], s))
    && (p.kind == "not" && p.arg.Some? ==> ListsCovered(p.arg.value, s))
  }

  lemma {:induction false} WantsTyped(s: Schema, term: string, values: seq<TypedValue>)
    requires JavaTerms(s, term, values).Ok?
    ensures forall i :: 0 <= i < |values| ==>
              TypeOf(s, term).Some? && HasType(TypeOf(s, term).value, JavaTerms(s, term, values).value[i])
  {
    if values != [] {
      WantsTyped(s, term, values[1..]);
      ParsedHasType(values[0], TypeOf(s, term).value);
    }
  }

  lemma TypedList(ty: PType, wants: seq<Value>, have: Value)
    requires HasType(ty, have) && !ty.TDecimal? && forall i :: 0 <= i < |wants| ==> HasType(ty, wants[i])
    ensures ContainsValue(wants, have) <==> ContainsEqual(wants, have)
  {
    forall i | 0 <= i < |wants| ensures Compare(wants[i], have) == 0 <==> wants[i] == have {
      CompareTells(ty, wants[i], have);
    }
  }

  /** At one in-list: on any storable record the two set tests agree, if the list is covered. */
  lemma ListAgrees(p: Pred, s: Schema, r: Record)
    requires p.kind == "in" || p.kind == "not-in"
    requires JavaTerms(s, p.term, p.values).Ok? && Storable(s, r) && ListsCovered(p, s)
    ensures var wants := JavaTerms(s, p.term, p.values).value;
            p.term in r ==> (ContainsValue(wants, r[p.term]) <==> ContainsEqual(wants, r[p.term]))
  {
    if p.term in r {
      var ty := TypeOf(s, p.term).value;
      WantsTyped(s, p.term, p.values);
      if ty.TDecimal? {
        DecimalFits(s, r, p.term);
        CoveredAt(JavaTerms(s, p.term, p.values).value, ty.precision, ty.scale, r[p.term].x);
      } else {
        TypedList(ty, JavaTerms(s, p.term, p.values).value, r[p.term]);
      }
    }
  }

  lemma {:induction false} CoveredListsExact(p: Pred, s: Schema, r: Record)
    requires MatcherOf(p, s).Ok? && Storable(s, r) && ListsCovered(p, s)
    ensures ListsExact(MatcherOf(p, s).value, r)
  {
    hide Storable, JavaTerms, ContainsValue, ContainsEqual, Covered;
    if p.kind == "in" || p.kind == "not-in" {
      ListAgrees(p, s, r);
    } else if p.kind == "and" || p.kind == "or" {
      MatchersOfEach(p.args, s);
      forall i | 0 <= i < |p.args| ensures ListsExact(MatcherOf(p.args[i], s).value, r) {
        CoveredListsExact(p.args[i], s, r);
      }
    } else if p.kind == "not" && p.arg.Some? {
      CoveredListsExact(p.arg.value, s, r);
    }
  }

  /** On every record a file can hold the lowered predicate means what the matcher means. */
  lemma LoweringOnRecords(p: Pred, s: Schema, cast: Caster, r: Record, nulls: NullPolicy)
    requires CastsAlike(p, s, cast) && BuildExpr(p, s, cast).Ok? && MatcherOf(p, s).Ok?
    requires Storable(s, r) && ListsCovered(p, s)
    requires nulls.LikeJava() || ComparedColumns(MatcherOf(p, s).value) <= r.Keys
    ensures Eval(BuildExpr(p, s, cast).value, r, nulls) <==> Matches(MatcherOf(p, s).value, r)
  {
    CoveredListsExact(p, s, r);
    LoweringPreservesMeaning(p, s, cast, r, nulls);
  }

  /** For an in-list the condition is exact: the readings agree on all storable records iff it is covered. */
  lemma SetTestExactly(p: Pred, s: Schema, cast: Caster, nulls: NullPolicy)
    requires (p.kind == "in" || p.kind == "not-in") && DistinctNames(s)
    requires CastsAlike(p, s, cast) && BuildExpr(p, s, cast).Ok? && MatcherOf(p, s).Ok?
    ensures (forall r :: Storable(s, r) && p.term in r ==>
               (Eval(BuildExpr(p, s, cast).value, r, nulls) <==> Matches(MatcherOf(p, s).value, r))) <==>
            ListsCovered(p, s)
  {
    if ListsCovered(p, s) {
      forall r | Storable(s, r) && p.term in r
        ensures Eval(BuildExpr(p, s, cast).value, r, nulls) <==> Matches(MatcherOf(p, s).value, r)
      {
        LoweringOnRecords(p, s, cast, r, nulls);
      }
    } else {
      var ty, wants := TypeOf(s, p.term).value, JavaTerms(s, p.term, p.values).value;
      WantsTyped(s, p.term, p.values);
      DecimalListExact(wants, ty.precision, ty.scale);
      var x: Numeral :| FitsDecimal(x, ty.precision, ty.scale)
                        && !(ContainsValue(wants, DecV(x)) <==> ContainsEqual(wants, DecV(x)));
      SetTestDiffers(p, s, cast, nulls, x);
    }
  }

  /** A value of the column that the two set tests treat differently makes a record that does. */
  lemma SetTestDiffers(p: Pred, s: Schema, cast: Caster, nulls: NullPolicy, x: Numeral)
    requires (p.kind == "in" || p.kind == "not-in") && DistinctNames(s)
    requires CastsAlike(p, s, cast) && BuildExpr(p, s, cast).Ok? && MatcherOf(p, s).Ok?
    requires TypeOf(s, p.term).Some? && TypeOf(s, p.term).value.TDecimal?
    requires FitsDecimal(x, TypeOf(s, p.term).value.precision, TypeOf(s, p.term).value.scale)
    requires var wants := JavaTerms(s, p.term, p.values).value;
             !(ContainsValue(wants, DecV(x)) <==> ContainsEqual(wants, DecV(x)))
    ensures var r: Record := map[p.term := DecV(x)];
            Storable(s, r) && p.term in r
            && Eval(BuildExpr(p, s, cast).value, r, nulls) != Matches(MatcherOf(p, s).value, r)
  {
    OneCellStorable(s, p.term, x);
    ListMeaning(p, s, cast, nulls, map[p.term := DecV(x)]);
  }

  lemma OneCellStorable(s: Schema, term: string, x: Numeral)
    requires DistinctNames(s) && TypeOf(s, term).Some? && TypeOf(s, term).value.TDecimal?
    requires FitsDecimal(x, TypeOf(s, term).value.precision, TypeOf(s, term).value.scale)
    ensures Storable(s, map[term := DecV(x)])
  {
    var r: Record := map[term := DecV(x)];
    forall i | 0 <= i < |s| && s[i].name in r ensures ColumnProblem(s[i], r) == None {
      TypeOfColumn(s, i);
    }
  }

  /** On a record that holds the column the readings agree iff the two set tests do. */
  lemma ListMeaning(p: Pred, s: Schema, cast: Caster, nulls: NullPolicy, r: Record)
    requires (p.kind == "in" || p.kind == "not-in") && p.term in r
    requires CastsAlike(p, s, cast) && BuildExpr(p, s, cast).Ok? && MatcherOf(p, s).Ok?
    ensures var wants := JavaTerms(s, p.term, p.values).value;
            (Eval(BuildExpr(p, s, cast).value, r, nulls) <==> Matches(MatcherOf(p, s).value, r)) <==>
            (ContainsValue(wants, r[p.term]) <==> ContainsEqual(wants, r[p.term]))
  {
    TermListsAgree(s, p.term, p.values, cast);
    SameSets(TermLiterals(s, p.term, p.values, cast).value, JavaTerms(s, p.term, p.values).value, r[p.term]);
  }

  // ----- deletes

  /** What a delete by the lowered expression keeps. */
  function GoKeeps(e: Expr, nulls: NullPolicy): Record -> bool {
    r => !Eval(e, r, nulls)
  }

  lemma LiveIsStorable(h: Header, entries: seq<Entry>, r: Record)
    requires Run(h, entries).Ok? && r in Run(h, entries).value.live
    ensures Storable(Run(h, entries).value.schema, r)
  {
    hide Step;
    RunInvariant(h, entries);
    RunIsPlain(h, entries);
    DecodeLaws.RunTyped(h, entries);
    WritableIsStorable(Run(h, entries).value.schema, r);
  }

  /**
   In any state a run reaches, deleting by Go's expression keeps the rows that deleting by Java's
   matcher keeps, once nulls are read as Java does and no in-list over a decimal column is uncovered.
   */
  lemma GoDeleteAgrees(h: Header, entries: seq<Entry>, p: Pred, cast: Caster, nulls: NullPolicy)
    requires Run(h, entries).Ok? && nulls.LikeJava()
    requires var s := Run(h, entries).value.schema;
             && CastsAlike(p, s, cast) && BuildExpr(p, s, cast).Ok? && MatcherOf(p, s).Ok? && ListsCovered(p, s)
    ensures var l := Run(h, entries).value;
            Seqs.Filter(GoKeeps(BuildExpr(p, l.schema, cast).value, nulls), l.live) ==
              Seqs.Filter(Survives(MatcherOf(p, l.schema).value), l.live)
  {
    hide Run, Storable, BuildExpr, MatcherOf, CastsAlike, ListsCovered;
    var l := Run(h, entries).value;
    var e, m := BuildExpr(p, l.schema, cast).value, MatcherOf(p, l.schema).value;
    forall r | r in l.live ensures GoKeeps(e, nulls)(r) == Survives(m)(r) {
      LiveIsStorable(h, entries, r);
      LoweringOnRecords(p, l.schema, cast, r, nulls);
    }
    Seqs.FilterAgree(GoKeeps(e, nulls), Survives(m), l.live);
  }
}
