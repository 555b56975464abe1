/**
 The two readings of an op-log predicate: `PredicateMatcher.java` interprets it directly, the Go
 runner lowers it to an Iceberg expression (`buildExpr`, `cmpOp`, `termLiteral`).
 */
module Predicates {
  import opened Wrappers
  import opened Text
  import opened Values
  import opened Numerals

  /** The authored predicate: one record with a type word, as both runners parse it. */
  datatype Pred = Pred(
    kind: string,
    term: string,
    value: Option<TypedValue>,
    values: seq<TypedValue>,
    args: seq<Pred>,
    arg: Option<Pred>)

  datatype CmpOp = EQ | NE | LT | LE | GT | GE

  predicate IsComparison(kind: string) {
    kind in {"eq", "ne", "lt", "lt-eq", "gt", "gt-eq"}
  }

  function CmpOpOf(kind: string): CmpOp {
    if kind == "eq" then EQ
    else if kind == "ne" then NE
    else if kind == "lt" then LT
    else if kind == "lt-eq" then LE
    else if kind == "gt" then GT
    else if kind == "gt-eq" then GE
    else EQ
  }

  // ----- PredicateMatcher

  /** The closures `PredicateMatcher.of` returns, with what each has captured. */
  datatype Matcher =
    | MTrue
    | MFalse
    | MIsNull(term: string)
    | MNotNull(term: string)
    | MCmp(op: CmpOp, term: string, want: Value)
    | MIn(term: string, wants: seq<Value>, negate: bool)
    | MAnd(subs: seq<Matcher>)
    | MOr(subs: seq<Matcher>)
    | MNot(sub: Matcher)

  function JavaTerm(s: Schema, term: string, value: Option<TypedValue>): Result<Value, Problem> {
    if value.None? then Err(MissingValue(term))
    else if JavaIsNull(value.value) then Err(NullLiteral)
    else if TypeOf(s, term).None? then Err(UnknownTerm(term))
    else
      var v :- ToJavaValue(value.value, TypeOf(s, term).value);
      if v.None? then Err(NullLiteral) else Ok(v.value)
  }

  function JavaTerms(s: Schema, term: string, values: seq<TypedValue>): (r: Result<seq<Value>, Problem>)
    ensures r.Ok? ==> |r.value| == |values|
  {
    if values == [] then Ok([])
    else
      var head :- JavaTerm(s, term, Some(values[0]));
      var tail :- JavaTerms(s, term, values[1..]);
      Ok([head] + tail)
  }

  /** `PredicateMatcher.of`. */
  function MatcherOf(p: Pred, s: Schema): Result<Matcher, Problem>
    decreases p, 1
  {
    if p.kind == "true" then Ok(MTrue)
    else if p.kind == "false" then Ok(MFalse)
    else if p.kind == "is-null" then Ok(MIsNull(p.term))
    else if p.kind == "not-null" then Ok(MNotNull(p.term))
    else if IsComparison(p.kind) then
      var want :- JavaTerm(s, p.term, p.value);
      Ok(MCmp(CmpOpOf(p.kind), p.term, want))
    else if p.kind == "in" || p.kind == "not-in" then
      var wants :- JavaTerms(s, p.term, p.values);
      Ok(MIn(p.term, wants, p.kind == "not-in"))
    else if p.kind == "and" then
      var subs :- MatchersOf(p.args, s);
      Ok(MAnd(subs))
    else if p.kind == "or" then
      var subs :- MatchersOf(p.args, s);
      Ok(MOr(subs))
    else if p.kind == "not" && p.arg.Some? then
      var sub :- MatcherOf(p.arg.value, s);
      Ok(MNot(sub))
    else Err(BadPredicate(p.kind))
  }

  function MatchersOf(ps: seq<Pred>, s: Schema): (r: Result<seq<Matcher>, Problem>)
    ensures r.Ok? ==> |r.value| == |ps|
    decreases ps, 0
  {
    if ps == [] then Ok([])
    else
      var head :- MatcherOf(ps[0], s);
      var tail :- MatchersOf(ps[1..], s);
      Ok([head] + tail)
  }

  /** The switch on `want.compareTo(have)`. */
  predicate JavaCompare(op: CmpOp, cmp: int) {
    match op
    case EQ => cmp == 0
    case NE => cmp != 0
    case LT => cmp > 0
    case LE => cmp >= 0
    case GT => cmp < 0
    case GE => cmp <= 0
  }

  predicate ContainsEqual(wants: seq<Value>, have: Value) {
    exists i :: 0 <= i < |wants| && wants[i] == have
  }

  predicate Matches(m: Matcher, r: Record) {
    match m
    case MTrue => true
    case MFalse => false
    case MIsNull(term) => term !in r
    case MNotNull(term) => term in r
    case MCmp(op, term, want) => term in r && JavaCompare(op, Compare(want, r[term]))
    case MIn(term, wants, negate) => negate != (term in r && ContainsEqual(wants, r[term]))
    case MAnd(subs) => forall i :: 0 <= i < |subs| ==> Matches(subs[i], r)
    case MOr(subs) => exists i :: 0 <= i < |subs| && Matches(subs[i], r)
    case MNot(sub) => !Matches(sub, r)
  }

  // ----- the Go lowering

  datatype Expr =
    | AlwaysTrue
    | AlwaysFalse
    | IsNull(ref: string)
    | NotNull(ref: string)
    | Literal(op: CmpOp, ref: string, lit: Value)
    | InSet(ref: string, lits: seq<Value>)
    | NotInSet(ref: string, lits: seq<Value>)
    | And(left: Expr, right: Expr)
    | Or(left: Expr, right: Expr)
    | Not(child: Expr)

  /** The Go decoder also takes the bare word null for a null, whatever the tag. */
  predicate GoIsNull(tv: TypedValue) {
    tv.Scalar? && (tv.tag == "null" || tv.text == "null")
  }

  /** The library's cast of a literal's text to a column type, on which the Go lowering relies. */
  type Caster = (PType, string) -> Option<Value>

  function TermLiteral(s: Schema, term: string, value: Option<TypedValue>, cast: Caster): Result<Value, Problem> {
    if value.None? then Err(MissingValue(term))
    else if TypeOf(s, term).None? then Err(UnknownTerm(term))
    else if GoIsNull(value.value) then Err(NullLiteral)
    else if value.value.Nested? then Err(NestedScalar)
    else if cast(TypeOf(s, term).value, value.value.text).None? then Err(BadScalar(value.value.text))
    else Ok(cast(TypeOf(s, term).value, value.value.text).value)
  }

  function TermLiterals(s: Schema, term: string, values: seq<TypedValue>, cast: Caster): (r: Result<seq<Value>, Problem>)
    ensures r.Ok? ==> |r.value| == |values|
  {
    if values == [] then Ok([])
    else
      var head :- TermLiteral(s, term, Some(values[0]), cast);
      var tail :- TermLiterals(s, term, values[1..], cast);
      Ok([head] + tail)
  }

  /** `NewAnd(sub[0], sub[1], sub[2:]...)`: the rest is folded onto the first pair. */
  function FoldAnd(acc: Expr, rest: seq<Expr>): Expr
    decreases rest
  {
    if rest == [] then acc else FoldAnd(And(acc, rest[0]), rest[1..])
  }

  function FoldOr(acc: Expr, rest: seq<Expr>): Expr
    decreases rest
  {
    if rest == [] then acc else FoldOr(Or(acc, rest[0]), rest[1..])
  }

  /** `buildExpr`. */
  function BuildExpr(p: Pred, s: Schema, cast: Caster): Result<Expr, Problem>
    decreases p, 1
  {
    if p.kind == "true" then Ok(AlwaysTrue)
    else if p.kind == "false" then Ok(AlwaysFalse)
    else if p.kind == "is-null" then Ok(IsNull(p.term))
    else if p.kind == "not-null" then Ok(NotNull(p.term))
    else if IsComparison(p.kind) then
      var lit :- TermLiteral(s, p.term, p.value, cast);
      Ok(Literal(CmpOpOf(p.kind), p.term, lit))
    else if p.kind == "in" || p.kind == "not-in" then
      var lits :- TermLiterals(s, p.term, p.values, cast);
      Ok(if p.kind == "not-in" then NotInSet(p.term, lits) else InSet(p.term, lits))
    else if p.kind == "and" || p.kind == "or" then
      if |p.args| < 2 then Err(TooFewArgs(p.kind))
      else
        var sub :- BuildExprs(p.args, s, cast);
        Ok(if p.kind == "and" then FoldAnd(And(sub[0], sub[1]), sub[2..])
           else FoldOr(Or(sub[0], sub[1]), sub[2..]))
    else if p.kind == "not" && p.arg.Some? then
      var e :- BuildExpr(p.arg.value, s, cast);
      Ok(Not(e))
    else Err(BadPredicate(p.kind))
  }

  function BuildExprs(ps: seq<Pred>, s: Schema, cast: Caster): (r: Result<seq<Expr>, Problem>)
    ensures r.Ok? ==> |r.value| == |ps|
    decreases ps, 0
  {
    if ps == [] then Ok([])
    else
      var head :- BuildExpr(ps[0], s, cast);
      var tail :- BuildExprs(ps[1..], s, cast);
      Ok([head] + tail)
  }

  // ----- the meaning of an expression

  predicate HoldsFor(op: CmpOp, have: Value, lit: Value) {
    match op
    case EQ => Compare(lit, have) == 0
    case NE => Compare(lit, have) != 0
    case LT => Compare(lit, have) > 0
    case LE => Compare(lit, have) >= 0
    case GT => Compare(lit, have) < 0
    case GE => Compare(lit, have) <= 0
  }

  /** Set membership in an expression is by value order, not by object equality. */
  predicate ContainsValue(lits: seq<Value>, have: Value) {
    exists i :: 0 <= i < |lits| && Compare(lits[i], have) == 0
  }

  /** What an expression evaluator answers where the column is null. */
  datatype NullPolicy = NullPolicy(cmp: CmpOp -> bool, inSet: bool, notInSet: bool) {
    ghost predicate LikeJava() {
      !inSet && notInSet && forall op :: !cmp(op)
    }
  }

  predicate Eval(e: Expr, r: Record, nulls: NullPolicy)
  {
    match e
    case AlwaysTrue => true
    case AlwaysFalse => false
    case IsNull(ref) => ref !in r
    case NotNull(ref) => ref in r
    case Literal(op, ref, lit) =>
      if ref in r then HoldsFor(op, r[ref], lit)
      else nulls.cmp(op)
    case InSet(ref, lits) => if ref in r then ContainsValue(lits, r[ref]) else nulls.inSet
    case NotInSet(ref, lits) => if ref in r then !ContainsValue(lits, r[ref]) else nulls.notInSet
    case And(left, right) => Eval(left, r, nulls) && Eval(right, r, nulls)
    case Or(left, right) => Eval(left, r, nulls) || Eval(right, r, nulls)
    case Not(child) => !Eval(child, r, nulls)
  }

  /** The columns whose null-ness the two readings could treat differently. */
  function ComparedColumns(m: Matcher): set<string> {
    match m
    case MCmp(_, term, _) => {term}
    case MIn(term, _, _) => {term}
    case MAnd(subs) => ComparedColumnsOf(subs)
    case MOr(subs) => ComparedColumnsOf(subs)
    case MNot(sub) => ComparedColumns(sub)
    case _ => {}
  }

  function ComparedColumnsOf(ms: seq<Matcher>): set<string> {
    if ms == [] then {} else ComparedColumns(ms[0]) + ComparedColumnsOf(ms[1..])
  }

  /** Every in-list that holds the record's value in order holds it as an equal. */
  predicate ListsExact(m: Matcher, r: Record) {
    match m
    case MIn(term, wants, _) =>
      term in r && ContainsValue(wants, r[term]) ==> ContainsEqual(wants, r[term])
    case MAnd(subs) => forall i :: 0 <= i < |subs| ==> ListsExact(subs[i], r)
    case MOr(subs) => forall i :: 0 <= i < |subs| ==> ListsExact(subs[i], r)
    case MNot(sub) => ListsExact(sub, r)
    case _ => true
  }

  // ----- acceptance

  /** What Go asks beyond Java: two args under every and/or, and no scalar spelled null. */
  predicate GoShaped(p: Pred) {
    && (IsComparison(p.kind) && p.value.Some? ==> !GoIsNull(p.value.value))
    && (p.kind == "in" || p.kind == "not-in" ==> forall i :: 0 <= i < |p.values| ==> !GoIsNull(p.values[i]))
    && (p.kind == "and" || p.kind == "or" ==>
          |p.args| >= 2 && forall i :: 0 <= i < |p.args| ==> GoShaped(p.args[i]))
    && (p.kind == "not" && p.arg.Some? ==> GoShaped(p.arg.value))
  }

  /** Equal, or decimals of one value: nothing can compare between them. */
  predicate EqualInOrder(v: Value, w: Value) {
    v == w || (v.DecV? && w.DecV? && CompareNumeral(v.x, w.x) == 0)
  }

  /** On this literal the library's cast succeeds as Java's parser does, with a value equal in order. */
  predicate CastAlike(s: Schema, term: string, tv: TypedValue, cast: Caster) {
    tv.Scalar? && TypeOf(s, term).Some? ==>
      var go, java := cast(TypeOf(s, term).value, tv.text), ParseValue(TypeOf(s, term).value, tv.text);
      go.Some? == java.Some? && (go.Some? ==> EqualInOrder(go.value, java.value))
  }

  /** So it does on every literal of the predicate. */
  predicate CastsAlike(p: Pred, s: Schema, cast: Caster) {
    && (IsComparison(p.kind) && p.value.Some? ==> CastAlike(s, p.term, p.value.value, cast))
    && (p.kind == "in" || p.kind == "not-in" ==>
          forall i :: 0 <= i < |p.values| ==> CastAlike(s, p.term, p.values[i], cast))
    && (p.kind == "and" || p.kind == "or" ==> forall i :: 0 <= i < |p.args| ==> CastsAlike(p.args[i], s, cast))
    && (p.kind == "not" && p.arg.Some? ==> CastsAlike(p.arg.value, s, cast))
  }

  lemma TermsAgree(s: Schema, term: string, value: Option<TypedValue>, cast: Caster)
    requires value.Some? ==> CastAlike(s, term, value.value, cast)
    ensures TermLiteral(s, term, value, cast).Ok? <==>
            JavaTerm(s, term, value).Ok? && !GoIsNull(value.value)
    ensures TermLiteral(s, term, value, cast).Ok? ==>
              EqualInOrder(TermLiteral(s, term, value, cast).value, JavaTerm(s, term, value).value)
  {
    hide EqualInOrder, ParseValue, TypeOf;
  }

  lemma {:induction false} TermListsAgree(s: Schema, term: string, values: seq<TypedValue>, cast: Caster)
    requires forall i :: 0 <= i < |values| ==> CastAlike(s, term, values[i], cast)
    ensures TermLiterals(s, term, values, cast).Ok? <==>
            JavaTerms(s, term, values).Ok? && forall i :: 0 <= i < |values| ==> !GoIsNull(values[i])
    ensures TermLiterals(s, term, values, cast).Ok? ==>
              forall i :: 0 <= i < |values| ==>
                EqualInOrder(TermLiterals(s, term, values, cast).value[i], JavaTerms(s, term, values).value[i])
  {
    hide CastAlike, EqualInOrder, TermLiteral, JavaTerm, GoIsNull;
    if values != [] {
      TermsAgree(s, term, Some(values[0]), cast);
      TermListsAgree(s, term, values[1..], cast);
      NoNulls(values);
      ListsCons(s, term, values, cast);
      hide TermLiterals, JavaTerms;
      if TermLiterals(s, term, values, cast).Ok? {
        forall i | 0 < i < |values|
          ensures EqualInOrder(TermLiterals(s, term, values, cast).value[i], JavaTerms(s, term, values).value[i])
        {
          assert EqualInOrder(TermLiterals(s, term, values[1..], cast).value[i - 1], JavaTerms(s, term, values[1..]).value[i - 1]);
        }
      }
    }
  }

  lemma NoNulls(values: seq<TypedValue>)
    requires values != []
    ensures (forall i :: 0 <= i < |values| ==> !GoIsNull(values[i])) <==>
            !GoIsNull(values[0]) && forall i :: 0 <= i < |values[1..]| ==> !GoIsNull(values[1..][i])
  {
    hide GoIsNull;
    if !GoIsNull(values[0]) && forall i :: 0 <= i < |values[1..]| ==> !GoIsNull(values[1..][i]) {
      forall i | 0 <= i < |values| ensures !GoIsNull(values[i]) {
        assert i > 0 ==> values[i] == values[1..][i - 1];
      }
    }
  }

  /** Both lists read their head and then their rest. */
  lemma ListsCons(s: Schema, term: string, values: seq<TypedValue>, cast: Caster)
    requires values != []
    ensures var head, rest, all := JavaTerm(s, term, Some(values[0])), JavaTerms(s, term, values[1..]), JavaTerms(s, term, values);
            (all.Ok? <==> head.Ok? && rest.Ok?) && (all.Ok? ==> all.value == [head.value] + rest.value)
    ensures var head, rest := TermLiteral(s, term, Some(values[0]), cast), TermLiterals(s, term, values[1..], cast);
            var all := TermLiterals(s, term, values, cast);
            (all.Ok? <==> head.Ok? && rest.Ok?) && (all.Ok? ==> all.value == [head.value] + rest.value)
  {
    hide JavaTerm, TermLiteral;
  }

  lemma {:induction false} MatchersOfEach(ps: seq<Pred>, s: Schema)
    ensures MatchersOf(ps, s).Ok? <==> forall i :: 0 <= i < |ps| ==> MatcherOf(ps[i], s).Ok?
    ensures MatchersOf(ps, s).Ok? ==>
              forall i :: 0 <= i < |ps| ==> MatchersOf(ps, s).value[i] == MatcherOf(ps[i], s).value
  {
    if ps != [] {
      MatchersOfEach(ps[1..], s);
      assert forall i :: 0 <= i < |ps[1..]| ==> ps[1..][i] == ps[i + 1];
      assert forall i :: 0 < i < |ps| ==> ps[i] == ps[1..][i - 1];
    }
  }

  lemma {:induction false} BuildExprsEach(ps: seq<Pred>, s: Schema, cast: Caster)
    ensures BuildExprs(ps, s, cast).Ok? <==> forall i :: 0 <= i < |ps| ==> BuildExpr(ps[i], s, cast).Ok?
    ensures BuildExprs(ps, s, cast).Ok? ==>
              forall i :: 0 <= i < |ps| ==> BuildExprs(ps, s, cast).value[i] == BuildExpr(ps[i], s, cast).value
  {
    if ps != [] {
      BuildExprsEach(ps[1..], s, cast);
      assert forall i :: 0 <= i < |ps[1..]| ==> ps[1..][i] == ps[i + 1];
      assert forall i :: 0 < i < |ps| ==> ps[i] == ps[1..][i - 1];
    }
  }

  /** `buildExpr` accepts exactly the predicates that Java accepts and that have Go's shape. */
  lemma {:induction false} AcceptanceExact(p: Pred, s: Schema, cast: Caster)
    requires CastsAlike(p, s, cast)
    ensures BuildExpr(p, s, cast).Ok? <==> MatcherOf(p, s).Ok? && GoShaped(p)
  {
    hide TermLiteral, TermLiterals, JavaTerms, ToJavaValue, TypeOf, GoIsNull, FoldAnd, FoldOr, CastAlike;
    if IsComparison(p.kind) {
      TermsAgree(s, p.term, p.value, cast);
    } else if p.kind == "in" || p.kind == "not-in" {
      TermListsAgree(s, p.term, p.values, cast);
    } else if p.kind == "and" || p.kind == "or" {
      MatchersOfEach(p.args, s);
      BuildExprsEach(p.args, s, cast);
      forall i | 0 <= i < |p.args|
        ensures BuildExpr(p.args[i], s, cast).Ok? <==> MatcherOf(p.args[i], s).Ok? && GoShaped(p.args[i])
      {
        AcceptanceExact(p.args[i], s, cast);
      }
    } else if p.kind == "not" && p.arg.Some? {
      AcceptanceExact(p.arg.value, s, cast);
    }
  }

  // ----- meaning

  lemma {:induction false} FoldAndEval(acc: Expr, rest: seq<Expr>, r: Record, nulls: NullPolicy)
    ensures Eval(FoldAnd(acc, rest), r, nulls) <==>
            Eval(acc, r, nulls) && forall i :: 0 <= i < |rest| ==> Eval(rest[i], r, nulls)
    decreases rest
  {
    if rest != [] {
      FoldAndEval(And(acc, rest[0]), rest[1..], r, nulls);
      assert forall i :: 0 <= i < |rest[1..]| ==> rest[1..][i] == rest[i + 1];
      assert forall i :: 0 < i < |rest| ==> rest[i] == rest[1..][i - 1];
    }
  }

  lemma {:induction false} FoldOrEval(acc: Expr, rest: seq<Expr>, r: Record, nulls: NullPolicy)
    ensures Eval(FoldOr(acc, rest), r, nulls) <==>
            Eval(acc, r, nulls) || exists i :: 0 <= i < |rest| && Eval(rest[i], r, nulls)
    decreases rest
  {
    if rest != [] {
      FoldOrEval(Or(acc, rest[0]), rest[1..], r, nulls);
      assert forall i :: 0 <= i < |rest[1..]| ==> rest[1..][i] == rest[i + 1];
      assert forall i :: 0 < i < |rest| ==> rest[i] == rest[1..][i - 1];
    }
  }

  lemma {:induction false} ColumnsOfPart(ms: seq<Matcher>, i: nat)
    requires i < |ms|
    ensures ComparedColumns(ms[i]) <= ComparedColumnsOf(ms)
  {
    if i > 0 {
      ColumnsOfPart(ms[1..], i - 1);
    }
  }

  /** Nothing in the record tells the two readings apart. */
  ghost predicate Indifferent(m: Matcher, r: Record, nulls: NullPolicy) {
    ListsExact(m, r) && (nulls.LikeJava() || ComparedColumns(m) <= r.Keys)
  }

  /** The lowered expression means what the matcher means. */
  lemma {:induction false} LoweringPreservesMeaning(
    p: Pred, s: Schema, cast: Caster, r: Record, nulls: NullPolicy)
    requires CastsAlike(p, s, cast) && BuildExpr(p, s, cast).Ok? && MatcherOf(p, s).Ok?
    requires Indifferent(MatcherOf(p, s).value, r, nulls)
    ensures Eval(BuildExpr(p, s, cast).value, r, nulls) <==> Matches(MatcherOf(p, s).value, r)
    decreases p, 1
  {
    hide TermLiteral, TermLiterals, JavaTerms, FoldAnd, FoldOr, CastAlike, Compare, IsComparison, Indifferent;
    if p.kind == "and" || p.kind == "or" {
      LoweringOfParts(p, s, cast, r, nulls);
    } else if p.kind == "not" && p.arg.Some? {
      NotBuilt(p, s, cast, r, nulls);
      LoweringPreservesMeaning(p.arg.value, s, cast, r, nulls);
    } else {
      hide BuildExpr, MatcherOf, CastsAlike, Eval, Matches;
      LeafLowered(p, s, cast, r, nulls);
    }
  }

  lemma NotBuilt(p: Pred, s: Schema, cast: Caster, r: Record, nulls: NullPolicy)
    requires p.kind == "not" && p.arg.Some?
    requires CastsAlike(p, s, cast) && BuildExpr(p, s, cast).Ok? && MatcherOf(p, s).Ok?
    requires Indifferent(MatcherOf(p, s).value, r, nulls)
    ensures BuildExpr(p.arg.value, s, cast).Ok? && MatcherOf(p.arg.value, s).Ok? && CastsAlike(p.arg.value, s, cast)
    ensures BuildExpr(p, s, cast) == Ok(Not(BuildExpr(p.arg.value, s, cast).value))
    ensures MatcherOf(p, s) == Ok(MNot(MatcherOf(p.arg.value, s).value))
    ensures Indifferent(MatcherOf(p.arg.value, s).value, r, nulls)
  {
  }

  /** A comparison, a set test, a null test or a constant. */
  lemma LeafLowered(p: Pred, s: Schema, cast: Caster, r: Record, nulls: NullPolicy)
    requires !(p.kind == "and" || p.kind == "or" || (p.kind == "not" && p.arg.Some?))
    requires CastsAlike(p, s, cast) && BuildExpr(p, s, cast).Ok? && MatcherOf(p, s).Ok?
    requires Indifferent(MatcherOf(p, s).value, r, nulls)
    ensures Eval(BuildExpr(p, s, cast).value, r, nulls) <==> Matches(MatcherOf(p, s).value, r)
  {
    hide TermLiteral, TermLiterals, JavaTerms, FoldAnd, FoldOr, CastAlike, Compare;
    if IsComparison(p.kind) {
      TermsAgree(s, p.term, p.value, cast);
      if p.term in r {
        OrderTellsNothing(TermLiteral(s, p.term, p.value, cast).value, JavaTerm(s, p.term, p.value).value, r[p.term]);
      }
    } else if p.kind == "in" || p.kind == "not-in" {
      TermListsAgree(s, p.term, p.values, cast);
      SetsAgree(TermLiterals(s, p.term, p.values, cast).value, JavaTerms(s, p.term, p.values).value, p.term, r);
    }
  }

  lemma SetsAgree(lits: seq<Value>, wants: seq<Value>, term: string, r: Record)
    requires |lits| == |wants| && forall i :: 0 <= i < |lits| ==> EqualInOrder(lits[i], wants[i])
    requires term in r && ContainsValue(wants, r[term]) ==> ContainsEqual(wants, r[term])
    ensures term in r ==> (ContainsValue(lits, r[term]) <==> ContainsEqual(wants, r[term]))
  {
    if term in r {
      SameSets(lits, wants, r[term]);
      if ContainsEqual(wants, r[term]) {
        CompareReflexive(r[term]);
      }
    }
  }

  /** Lists equal in order contain the same values. */
  lemma SameSets(lits: seq<Value>, wants: seq<Value>, have: Value)
    requires |lits| == |wants| && forall i :: 0 <= i < |lits| ==> EqualInOrder(lits[i], wants[i])
    ensures ContainsValue(lits, have) <==> ContainsValue(wants, have)
  {
    hide Compare, EqualInOrder;
    forall i | 0 <= i < |lits| ensures Compare(lits[i], have) == Compare(wants[i], have) {
      OrderTellsNothing(lits[i], wants[i], have);
    }
  }

  lemma ScaleOrder(a: int, b: int, k: int)
    requires k > 0
    ensures Compare3(a, b) == Compare3(a * k, b * k)
  {
    if a < b {
      assert (b - a) * k > 0;
    } else if a > b {
      assert (a - b) * k > 0;
    }
  }

  lemma Regroup(a: int, b: int, c: int)
    ensures a * b * c == a * c * b
  {
  }

  /** Values equal in order compare alike with everything. */
  lemma OrderTellsNothing(v: Value, w: Value, have: Value)
    requires EqualInOrder(v, w)
    ensures Compare(v, have) == Compare(w, have)
  {
    if v.DecV? && w.DecV? && have.DecV? {
      var a, b, c := v.x.unscaled, w.x.unscaled, have.x.unscaled;
      var pa, pb, pc := Pow10(v.x.scale), Pow10(w.x.scale), Pow10(have.x.scale);
      PowPositive(v.x.scale);
      PowPositive(w.x.scale);
      ScaleOrder(a * pc, c * pa, pb);
      ScaleOrder(b * pc, c * pb, pa);
      assert a * pb == b * pa;
      Regroup(a, pc, pb);
      Regroup(b, pc, pa);
      Regroup(c, pa, pb);
    }
  }

  lemma CompareReflexive(v: Value)
    ensures Compare(v, v) == 0
  {
  }

  /** The parts of an accepted conjunction or disjunction, and what is made of them. */
  lemma PartsBuilt(p: Pred, s: Schema, cast: Caster) returns (es: seq<Expr>, ms: seq<Matcher>)
    requires (p.kind == "and" || p.kind == "or") && CastsAlike(p, s, cast)
    requires BuildExpr(p, s, cast).Ok? && MatcherOf(p, s).Ok?
    ensures |es| == |ms| == |p.args| >= 2
    ensures forall i :: 0 <= i < |p.args| ==>
              && CastsAlike(p.args[i], s, cast)
              && BuildExpr(p.args[i], s, cast) == Ok(es[i]) && MatcherOf(p.args[i], s) == Ok(ms[i])
    ensures MatcherOf(p, s) == Ok(if p.kind == "and" then MAnd(ms) else MOr(ms))
    ensures BuildExpr(p, s, cast) ==
              Ok(if p.kind == "and" then FoldAnd(And(es[0], es[1]), es[2..]) else FoldOr(Or(es[0], es[1]), es[2..]))
  {
    MatchersOfEach(p.args, s);
    BuildExprsEach(p.args, s, cast);
    es, ms := BuildExprs(p.args, s, cast).value, MatchersOf(p.args, s).value;
    hide FoldAnd, FoldOr;
  }

  lemma {:induction false} LoweringOfParts(
    p: Pred, s: Schema, cast: Caster, r: Record, nulls: NullPolicy)
    requires p.kind == "and" || p.kind == "or"
    requires CastsAlike(p, s, cast) && BuildExpr(p, s, cast).Ok? && MatcherOf(p, s).Ok?
    requires Indifferent(MatcherOf(p, s).value, r, nulls)
    ensures Eval(BuildExpr(p, s, cast).value, r, nulls) <==> Matches(MatcherOf(p, s).value, r)
    decreases p, 0
  {
    var es, ms := PartsBuilt(p, s, cast);
    hide BuildExpr, MatcherOf, CastsAlike, Eval, Matches, FoldAnd, FoldOr;
    forall i | 0 <= i < |es| ensures Eval(es[i], r, nulls) <==> Matches(ms[i], r) {
      ColumnsOfPart(ms, i);
      LoweringPreservesMeaning(p.args[i], s, cast, r, nulls);
    }
    if p.kind == "and" {
      AndAgrees(es, ms, r, nulls);
    } else {
      OrAgrees(es, ms, r, nulls);
    }
  }

  lemma AndAgrees(es: seq<Expr>, ms: seq<Matcher>, r: Record, nulls: NullPolicy)
    requires |es| == |ms| >= 2
    requires forall i :: 0 <= i < |es| ==> (Eval(es[i], r, nulls) <==> Matches(ms[i], r))
    ensures Eval(FoldAnd(And(es[0], es[1]), es[2..]), r, nulls) <==> Matches(MAnd(ms), r)
  {
    FoldAndEval(And(es[0], es[1]), es[2..], r, nulls);
    assert forall i :: 0 <= i < |es| - 2 ==> es[2..][i] == es[i + 2];
    if Eval(FoldAnd(And(es[0], es[1]), es[2..]), r, nulls) {
      forall i | 0 <= i < |ms| ensures Matches(ms[i], r) {
        assert i >= 2 ==> Eval(es[2..][i - 2], r, nulls);
      }
    }
  }

  lemma OrAgrees(es: seq<Expr>, ms: seq<Matcher>, r: Record, nulls: NullPolicy)
    requires |es| == |ms| >= 2
    requires forall i :: 0 <= i < |es| ==> (Eval(es[i], r, nulls) <==> Matches(ms[i], r))
    ensures Eval(FoldOr(Or(es[0], es[1]), es[2..]), r, nulls) <==> Matches(MOr(ms), r)
  {
    FoldOrEval(Or(es[0], es[1]), es[2..], r, nulls);
    assert forall i :: 0 <= i < |es| - 2 ==> es[2..][i] == es[i + 2];
    if Matches(MOr(ms), r) {
      var i :| 0 <= i < |ms| && Matches(ms[i], r);
      assert i >= 2 ==> Eval(es[2..][i - 2], r, nulls);
    }
  }

  /** The cast that is Java's own parser. */
  function JavaCast(): Caster {
    (ty: PType, text: string) => ParseValue(ty, text)
  }

  lemma {:induction false} JavaCastAlike(p: Pred, s: Schema)
    ensures CastsAlike(p, s, JavaCast())
  {
    if p.kind == "and" || p.kind == "or" {
      forall i | 0 <= i < |p.args| ensures CastsAlike(p.args[i], s, JavaCast()) {
        JavaCastAlike(p.args[i], s);
      }
    } else if p.kind == "not" && p.arg.Some? {
      JavaCastAlike(p.arg.value, s);
    }
  }

  /** Go resolves a literal exactly when Java does and it is not spelled null, and to an equal in order. */
  ghost predicate ResolvedAlike(s: Schema, term: string, tv: TypedValue, cast: Caster) {
    var go, java := TermLiteral(s, term, Some(tv), cast), JavaTerm(s, term, Some(tv));
    && (go.Ok? <==> java.Ok? && !GoIsNull(tv))
    && (go.Ok? ==> EqualInOrder(go.value, java.value))
  }

  /** That is so exactly when the library's cast answers as Java's parser; a null is refused whatever the cast. */
  lemma CasterExact(s: Schema, term: string, tv: TypedValue, cast: Caster)
    ensures ResolvedAlike(s, term, tv, cast) <==> GoIsNull(tv) || CastAlike(s, term, tv, cast)
  {
    hide EqualInOrder, ParseValue;
  }

  /** The policy under which nulls never part the readings is Java's own, and no other. */
  lemma NullPolicyExact(nulls: NullPolicy)
    ensures nulls.LikeJava() <==>
            forall p, s, r ::
              BuildExpr(p, s, JavaCast()).Ok? && MatcherOf(p, s).Ok? && ListsExact(MatcherOf(p, s).value, r)
              ==> (Eval(BuildExpr(p, s, JavaCast()).value, r, nulls) <==> Matches(MatcherOf(p, s).value, r))
  {
    if nulls.LikeJava() {
      forall p, s, r | BuildExpr(p, s, JavaCast()).Ok? && MatcherOf(p, s).Ok? && ListsExact(MatcherOf(p, s).value, r)
        ensures Eval(BuildExpr(p, s, JavaCast()).value, r, nulls) <==> Matches(MatcherOf(p, s).value, r)
      {
        JavaCastAlike(p, s);
        LoweringPreservesMeaning(p, s, JavaCast(), r, nulls);
      }
    } else {
      NullToldApart(KindToldApart(nulls), nulls);
    }
  }

  /** On a record where the column is null, one comparison or set test tells the policies apart. */
  lemma NullToldApart(kind: string, nulls: NullPolicy)
    requires
      || (kind == "in" && nulls.inSet)
      || (kind == "not-in" && !nulls.notInSet)
      || (IsComparison(kind) && nulls.cmp(CmpOpOf(kind)))
    ensures exists p, s, r ::
              && BuildExpr(p, s, JavaCast()).Ok? && MatcherOf(p, s).Ok? && ListsExact(MatcherOf(p, s).value, r)
              && Eval(BuildExpr(p, s, JavaCast()).value, r, nulls) != Matches(MatcherOf(p, s).value, r)
  {
    var p := Pred(kind, "c", Some(Scalar("string", "x")), [], [], None);
    var s := [Field(1, "c", TString, false)];
    var r: Record := map[];
    if IsComparison(kind) {
      ComparisonBuilt(kind);
    } else {
      EmptyListBuilt(kind);
    }
    hide BuildExpr, MatcherOf, IsComparison, CmpOpOf, JavaCast;
    assert Eval(BuildExpr(p, s, JavaCast()).value, r, nulls) != Matches(MatcherOf(p, s).value, r);
  }

  lemma ComparisonBuilt(kind: string)
    requires IsComparison(kind)
    ensures var p, s := Pred(kind, "c", Some(Scalar("string", "x")), [], [], None), [Field(1, "c", TString, false)];
            && MatcherOf(p, s) == Ok(MCmp(CmpOpOf(kind), "c", StrV("x")))
            && BuildExpr(p, s, JavaCast()) == Ok(Literal(CmpOpOf(kind), "c", StrV("x")))
  {
    hide CmpOpOf;
    assert TypeOf([Field(1, "c", TString, false)], "c") == Some(TString);
  }

  lemma EmptyListBuilt(kind: string)
    requires kind == "in" || kind == "not-in"
    ensures var p, s := Pred(kind, "c", Some(Scalar("string", "x")), [], [], None), [Field(1, "c", TString, false)];
            && MatcherOf(p, s) == Ok(MIn("c", [], kind == "not-in"))
            && BuildExpr(p, s, JavaCast()) == Ok(if kind == "not-in" then NotInSet("c", []) else InSet("c", []))
  {
  }

  ghost function KindToldApart(nulls: NullPolicy): (kind: string)
    requires !nulls.LikeJava()
    ensures
      || (kind == "in" && nulls.inSet)
      || (kind == "not-in" && !nulls.notInSet)
      || (IsComparison(kind) && nulls.cmp(CmpOpOf(kind)))
  {
    if nulls.inSet then "in"
    else if !nulls.notInSet then "not-in"
    else if nulls.cmp(EQ) then "eq"
    else if nulls.cmp(NE) then "ne"
    else if nulls.cmp(LT) then "lt"
    else if nulls.cmp(LE) then "lt-eq"
    else if nulls.cmp(GT) then "gt"
    else
      assert exists op :: nulls.cmp(op) && op.GE?;
      "gt-eq"
  }

  lemma HalfIsNumeral()
    ensures ParseValue(TDecimal(9, 2), "1.5") == Some(DecV(Numeral(15, 1)))
  {
    hide ParseNumeral;
    TenthsParse(1, 5);
    assert "1.5" == [Digit(1), '.', Digit(5)];
  }

  /** A single-literal list is accepted as that literal, when both sides read it. */
  lemma OneInList(p: Pred, s: Schema, cast: Caster, go: Value, java: Value)
    requires p.kind == "in" && |p.values| == 1
    requires JavaTerm(s, p.term, Some(p.values[0])) == Ok(java)
    requires TermLiteral(s, p.term, Some(p.values[0]), cast) == Ok(go)
    ensures BuildExpr(p, s, cast) == Ok(InSet(p.term, [go])) && MatcherOf(p, s) == Ok(MIn(p.term, [java], false))
  {
    hide JavaTerm, TermLiteral;
    assert p.values[1..] == [];
    assert JavaTerms(s, p.term, p.values[1..]) == Ok([]) && TermLiterals(s, p.term, p.values[1..], cast) == Ok([]);
    assert [java] + [] == [java] && [go] + [] == [go];
    assert JavaTerms(s, p.term, p.values) == Ok([java]) && TermLiterals(s, p.term, p.values, cast) == Ok([go]);
  }

  /**
   A decimal authored as 1.5 is in Go's reading of the list, and not in Java's, for a stored 1.50,
   whatever scale Go's cast gives the literal.
   */
  lemma DecimalInListDiverges(cast: Caster, nulls: NullPolicy)
    requires var lit := cast(TDecimal(9, 2), "1.5"); lit.Some? && Compare(lit.value, DecV(Numeral(150, 2))) == 0
    ensures var p := Pred("in", "d", None, [Scalar("decimal", "1.5")], [], None);
            var s := [Field(1, "d", TDecimal(9, 2), false)];
            var r: Record := map["d" := DecV(Numeral(150, 2))];
            && BuildExpr(p, s, cast).Ok? && Eval(BuildExpr(p, s, cast).value, r, nulls)
            && MatcherOf(p, s).Ok? && !Matches(MatcherOf(p, s).value, r)
  {
    var p := Pred("in", "d", None, [Scalar("decimal", "1.5")], [], None);
    var s := [Field(1, "d", TDecimal(9, 2), false)];
    var r: Record := map["d" := DecV(Numeral(150, 2))];
    var go, java := cast(TDecimal(9, 2), "1.5").value, DecV(Numeral(15, 1));
    HalfIsNumeral();
    hide ParseValue, Compare;
    assert TypeOf(s, "d") == Some(TDecimal(9, 2));
    OneInList(p, s, cast, go, java);
    hide BuildExpr, MatcherOf;
    assert [go][0] == go && r["d"] != java;
  }
}
