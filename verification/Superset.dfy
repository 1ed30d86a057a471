/** What the "superset" test of the menu code means for the values of symbols,
    and exactly where it lets an entry pass wrongly. */
module Supersets {
  import opened Options
  import opened Tristates
  import opened Exprs
  import opened Equality
  import opened Joining
  import opened Transforming
  import opened Operands
  import opened Dedup
  import opened Dependencies

  // ---------- Bare symbols of a test ----------

  /** Bare symbols are bool, or one of y and n. */
  predicate TwoValued(e: Expr) {
    match e
    case Symbol(s) => s.kind.Boolean? || s == SYM_YES || s == SYM_NO
    case Comp(_, _, _) => true
    case Not(a) => TwoValued(a)
    case Bin(_, a, b) => TwoValued(a) && TwoValued(b)
  }

  ghost predicate AllTwoValued(c: seq<Expr>) {
    forall i :: 0 <= i < |c| ==> TwoValued(c[i])
  }

  lemma {:induction false} TransCompareIsTwoValued(e: Expr, rel: Rel, sym: Sym)
    requires (rel.Eq? || rel.Ne?) && (sym == SYM_YES || sym == SYM_NO)
    ensures TwoValued(TransCompare(e, rel, sym))
  {
    match e
    case Bin(_, a, b) =>
      TransCompareIsTwoValued(a, Eq, sym);
      TransCompareIsTwoValued(b, Eq, sym);
    case Not(a) => TransCompareIsTwoValued(a, FlipRel(rel), sym);
    case _ =>
  }

  lemma {:induction false} TransformKeepsTwoValued(e: Expr)
    requires TwoValued(e)
    ensures TwoValued(Transform(e))
    decreases OpCount(e), LeadingNots(e)
  {
    match e
    case Symbol(_) =>
    case Comp(_, _, _) =>
    case Bin(_, a, b) =>
      TransformKeepsTwoValued(a);
      TransformKeepsTwoValued(b);
    case Not(a) =>
      TransformKeepsTwoValued(a);
      match Transform(a)
      case Not(x) => TransformKeepsTwoValued(x);
      case Bin(op, x, y) =>
        assert OpCount(Not(x)) == OpCount(x) && OpCount(Not(y)) == OpCount(y);
        TransformKeepsTwoValued(Bin(Dual(op), Not(x), Not(y)));
      case _ =>
  }

  lemma JoinKeepsTwoValued(op: BinOp, e1: Expr, e2: Expr)
    requires TwoValued(e1) && TwoValued(e2) && Join(op, e1, e2).Some?
    ensures TwoValued(Join(op, e1, e2).value)
  {
    hide ExprEq;
  }

  lemma {:induction false} TwoValuedOperands(op: BinOp, e: Expr)
    ensures TwoValued(e) <==> AllTwoValued(OperandsOf(op, e))
  {
    if IsOp(op, e) {
      var a, b := OperandsOf(op, e.fst), OperandsOf(op, e.snd);
      TwoValuedOperands(op, e.fst);
      TwoValuedOperands(op, e.snd);
      assert forall i :: 0 <= i < |a| ==> (a + b)[i] == a[i];
      assert forall i :: 0 <= i < |b| ==> (a + b)[|a| + i] == b[i];
    } else {
      assert OperandsOf(op, e)[0] == e;
    }
  }

  lemma {:induction false} RebuiltIsTwoValued(op: BinOp, e: Expr, c: seq<Expr>)
    requires |c| == |OperandsOf(op, e)| && AllTwoValued(c)
    ensures TwoValued(Rebuilt(op, e, c))
  {
    if IsOp(op, e) {
      var n := |OperandsOf(op, e.fst)|;
      RebuiltIsTwoValued(op, e.fst, c[..n]);
      RebuiltIsTwoValued(op, e.snd, c[n..]);
    }
  }

  lemma {:induction false} PassKeepsTwoValued(e: Expr)
    requires e.Bin? && TwoValued(e)
    ensures TwoValued(PassOver(e).0)
    decreases Size(e), 0, 0
  {
    hide TryAll, AllTwoValued;
    var c := OperandsOf(e.op, e);
    OperandsAreSmaller(e.op, e);
    SizeOfOperands(e.op, e);
    TwoValuedOperands(e.op, e);
    TryAllKeepsTwoValued(e.op, c, 0, |c|, 0, 0, |c|);
    RebuiltIsTwoValued(e.op, e, TryAll(e.op, c, 0, |c|, 0, 0, |c|).0);
  }

  lemma {:induction false} TryAllKeepsTwoValued(op: BinOp, c: seq<Expr>, i: nat, i1: nat, j0: nat, j: nat, j1: nat)
    requires i <= i1 <= |c| && j0 <= j <= j1 <= |c| && AllTwoValued(c)
    ensures AllTwoValued(TryAll(op, c, i, i1, j0, j, j1).0)
    decreases TotalSize(c), 1 + i1 - i, j1 - j
  {
    hide TryAt, AllTwoValued;
    if i == i1 {
    } else if j == j1 {
      TryAllKeepsTwoValued(op, c, i + 1, i1, j0, j0, j1);
    } else {
      TryAtKeepsTwoValued(op, c, i, j);
      TryAllKeepsTwoValued(op, TryAt(op, c, i, j).0, i, i1, j0, j + 1, j1);
    }
  }

  lemma {:induction false} TryAtKeepsTwoValued(op: BinOp, c: seq<Expr>, i: nat, j: nat)
    requires i < |c| && j < |c| && AllTwoValued(c)
    ensures AllTwoValued(TryAt(op, c, i, j).0)
    decreases TotalSize(c), 1, 0
  {
    hide PassOver, Join;
    if i != j {
      SizeInRow(c, i);
      var e := if c[i].Bin? then PassOver(c[i]).0 else c[i];
      if c[i].Bin? { PassKeepsTwoValued(c[i]); }
      var d := c[i := e];
      if Join(op, d[i], d[j]).Some? { JoinKeepsTwoValued(op, d[i], d[j]); }
    }
  }

  lemma {:induction false} ElimYnKeepsTwoValued(e: Expr)
    requires TwoValued(e)
    ensures TwoValued(ElimYn(e))
  {
    if e.Bin? {
      ElimYnKeepsTwoValued(e.fst);
      ElimYnKeepsTwoValued(e.snd);
    }
  }

  lemma {:induction false} DeduplicatedKeepsTwoValued(e: Expr)
    requires TwoValued(e)
    ensures TwoValued(Deduplicated(e))
    decreases Size(e)
  {
    hide PassOver, TwoValued;
    if e.Bin? {
      PassKeepsTwoValued(e);
      var (r, n) := PassOver(e);
      if n > 0 {
        FoundShrinks(e);
        ElimYnKeepsTwoValued(r);
        DeduplicatedKeepsTwoValued(ElimYn(r));
      }
    }
  }

  // ---------- A visibility for every test ----------

  const BOOL := Sym(3, Boolean, false)

  /** `e` with y and n written as comparisons of a bool symbol with m. */
  function Explicit(e: Expr): Expr {
    match e
    case Symbol(s) => if s == SYM_YES then Comp(Ne, BOOL, SYM_MOD) else if s == SYM_NO then Comp(Eq, BOOL, SYM_MOD) else e
    case Comp(_, _, _) => e
    case Not(a) => Not(Explicit(a))
    case Bin(op, a, b) => Bin(op, Explicit(a), Explicit(b))
  }

  /** What the comparison for n gives, normalised and then negated, is `e`. */
  lemma {:induction false} NormalIsTest(e: Expr)
    requires Normal(e) && TwoValued(e)
    ensures Transform(TransCompare(Explicit(e), Ne, SYM_NO)) == e
    ensures Transform(Not(Transform(TransCompare(Explicit(e), Eq, SYM_NO)))) == e
  {
    match e
    case Bin(op, a, b) =>
      NormalIsTest(a);
      NormalIsTest(b);
      NegatedBin(op, TransCompare(Explicit(a), Eq, SYM_NO), TransCompare(Explicit(b), Eq, SYM_NO));
      TransformFixesNormal(Transform(TransCompare(Explicit(e), Eq, SYM_NO)));
    case Symbol(s) =>
      var x := TransCompare(Explicit(e), Eq, SYM_NO);
      assert s.kind.Boolean? ==> Transform(x) == Not(e) && Transform(Not(e)) == Not(e);
      assert s == SYM_YES ==> Transform(x) == EXPR_NO;
      assert s == SYM_NO ==> Transform(x) == EXPR_YES;
    case _ =>
  }

  lemma NegatedBin(op: BinOp, x: Expr, y: Expr)
    ensures
      Transform(Not(Bin(Dual(op), x, y))) == Bin(op, Transform(Not(Transform(x))), Transform(Not(Transform(y))))
  {
    var z := Transform(Bin(Dual(op), x, y));
    assert z == Bin(Dual(op), Transform(x), Transform(y));
    var w := Bin(op, Not(Transform(x)), Not(Transform(y)));
    assert OpCount(w) == OpCount(z);
    assert Transform(w) == Bin(op, Transform(Not(Transform(x))), Transform(Not(Transform(y))));
  }

  lemma {:induction false} ExplicitFacts(e: Expr)
    requires TwoValued(e)
    ensures TriSymbols(Explicit(e)) && Compared(Explicit(e)) == Compared(e)
    ensures forall env: Env :: Admissible(env) ==> Eval(Explicit(e), env) == Eval(e, env)
  {
    match e
    case Bin(_, a, b) =>
      ExplicitFacts(a);
      ExplicitFacts(b);
    case Not(a) => ExplicitFacts(a);
    case _ =>
  }

  // ---------- Tests without constants ----------

  /** Nothing for the removal of constants to do. */
  predicate Stable(e: Expr) {
    ElimYn(e) == e
  }

  predicate IsConstant(e: Expr) {
    e == EXPR_YES || e == EXPR_NO
  }

  lemma {:induction false} ElimYnIsStable(e: Expr)
    ensures Stable(ElimYn(e))
  {
    if e.Bin? {
      ElimYnIsStable(e.fst);
      ElimYnIsStable(e.snd);
    }
  }

  lemma {:induction false} DeduplicatedKeepsStable(e: Expr)
    requires Stable(e)
    ensures Stable(Deduplicated(e))
    decreases Size(e)
  {
    hide PassOver, Stable;
    if e.Bin? {
      PassFacts(e);
      var (r, n) := PassOver(e);
      if n > 0 {
        FoundShrinks(e);
        ElimYnIsStable(r);
        DeduplicatedKeepsStable(ElimYn(r));
      }
    }
  }

  /** The operands of a stable && or || are stable and not constant. */
  lemma {:induction false} StableOperands(op: BinOp, e: Expr)
    requires Stable(e) && !IsConstant(e)
    ensures forall x :: x in OperandsOf(op, e) ==> Stable(x) && !IsConstant(x)
  {
    if IsOp(op, e) {
      StableOperands(op, e.fst);
      StableOperands(op, e.snd);
    }
  }

  /** No bool symbol is compared with m, and no bare symbol is y or n. */
  predicate NoConstants(e: Expr) {
    match e
    case Symbol(s) => s != SYM_YES && s != SYM_NO
    case Comp(rel, l, r) => !(l.kind.Boolean? && (rel.Eq? || rel.Ne?) && r == SYM_MOD)
    case Not(a) => NoConstants(a)
    case Bin(_, a, b) => NoConstants(a) && NoConstants(b)
  }

  /** The same of comparisons alone. */
  predicate NoBoolIsM(e: Expr) {
    match e
    case Symbol(_) => true
    case Comp(_, _, _) => NoConstants(e)
    case Not(a) => NoBoolIsM(a)
    case Bin(_, a, b) => NoBoolIsM(a) && NoBoolIsM(b)
  }

  lemma {:induction false} NoConstantsIsStable(e: Expr)
    requires NoConstants(e)
    ensures Stable(e) && !IsConstant(e)
  {
    if e.Bin? {
      NoConstantsIsStable(e.fst);
      NoConstantsIsStable(e.snd);
    }
  }

  lemma {:induction false} TransformKeepsNoConstants(e: Expr)
    requires NoConstants(e)
    ensures NoConstants(Transform(e))
    decreases OpCount(e), LeadingNots(e)
  {
    match e
    case Symbol(_) =>
    case Comp(_, _, _) =>
    case Bin(_, a, b) =>
      TransformKeepsNoConstants(a);
      TransformKeepsNoConstants(b);
    case Not(a) =>
      TransformKeepsNoConstants(a);
      match Transform(a)
      case Not(x) => TransformKeepsNoConstants(x);
      case Bin(op, x, y) =>
        assert OpCount(Not(x)) == OpCount(x) && OpCount(Not(y)) == OpCount(y);
        TransformKeepsNoConstants(Bin(Dual(op), Not(x), Not(y)));
      case _ =>
  }

  lemma {:induction false} TransCompareHasNoConstants(e: Expr, rel: Rel, sym: Sym)
    requires NoBoolIsM(e) && (rel.Eq? || rel.Ne?) && (sym == SYM_YES || sym == SYM_NO)
    ensures NoConstants(TransCompare(e, rel, sym))
  {
    match e
    case Bin(_, a, b) =>
      TransCompareHasNoConstants(a, Eq, sym);
      TransCompareHasNoConstants(b, Eq, sym);
    case Not(a) => TransCompareHasNoConstants(a, FlipRel(rel), sym);
    case _ =>
  }

  /** What is known of every test. */
  lemma TestFacts(dep: Expr)
    ensures var t := TestOf(Some(dep)); Normal(t) && TwoValued(t) && Deduped(t) && (NoBoolIsM(dep) ==> Stable(t))
  {
    hide Transform, Deduplicated, Stable;
    var c := TransCompare(dep, Ne, SYM_NO);
    TransCompareIsTwoValued(dep, Ne, SYM_NO);
    TransformKeepsTwoValued(c);
    DeduplicatedKeepsTwoValued(Transform(c));
    DeduplicatedFacts(Transform(c));
    if NoBoolIsM(dep) {
      TransCompareHasNoConstants(dep, Ne, SYM_NO);
      TransformKeepsNoConstants(c);
      NoConstantsIsStable(Transform(c));
      DeduplicatedKeepsStable(Transform(c));
    }
  }

  // ---------- An expression cancelled against itself ----------

  lemma {:induction false} NoneCancels(op: BinOp, x: Expr, e: Expr, c: seq<Expr>)
    requires |c| == |OperandsOf(op, e)| && AreOperands(op, c) && !IsOp(op, x)
    requires forall j :: 0 <= j < |c| ==> !ExprEq(x, c[j]) || (x == c[j] && IsConstant(x))
    ensures ElimEq(op, x, Rebuilt(op, e, c)) == (x, Rebuilt(op, e, c))
  {
    hide ExprEq;
    if IsOp(op, e) {
      var n := |OperandsOf(op, e.fst)|;
      NoneCancels(op, x, e.fst, c[..n]);
      NoneCancels(op, x, e.snd, c[n..]);
    }
  }

  lemma ConstantCancelsNothing(op: BinOp, e: Expr, c: seq<Expr>)
    requires |c| == |OperandsOf(op, e)| && AreOperands(op, c)
    ensures ElimEq(op, Neutral(op), Rebuilt(op, e, c)) == (Neutral(op), Rebuilt(op, e, c))
  {
    NoneCancels(op, Neutral(op), e, c);
  }

  lemma {:induction false} OneCancels(op: BinOp, x: Expr, e: Expr, c: seq<Expr>, k: nat)
    requires |c| == |OperandsOf(op, e)| && AreOperands(op, c) && !IsOp(op, x) && !IsConstant(x)
    requires k < |c| && c[k] == x && ExprEq(x, x)
    requires forall j :: 0 <= j < |c| && j != k ==> !ExprEq(x, c[j])
    ensures ElimEq(op, x, Rebuilt(op, e, c)) == (Neutral(op), Rebuilt(op, e, c[k := Neutral(op)]))
  {
    hide ExprEq;
    var d := c[k := Neutral(op)];
    if IsOp(op, e) {
      var n := |OperandsOf(op, e.fst)|;
      if k < n {
        OneCancels(op, x, e.fst, c[..n], k);
        ConstantCancelsNothing(op, e.snd, c[n..]);
        assert d[..n] == c[..n][k := Neutral(op)] && d[n..] == c[n..];
      } else {
        NoneCancels(op, x, e.fst, c[..n]);
        OneCancels(op, x, e.snd, c[n..], k - n);
        assert d[..n] == c[..n] && d[n..] == c[n..][k - n := Neutral(op)];
      }
    }
  }

  /** The first `k` operands are replaced by the neutral one. */
  function Blanks(op: BinOp, c: seq<Expr>, k: nat): (d: seq<Expr>)
    ensures |d| == |c| && forall i :: 0 <= i < |d| ==> d[i] == if i < k then Neutral(op) else c[i]
  {
    seq(|c|, i requires 0 <= i < |c| => if i < k then Neutral(op) else c[i])
  }

  /** Operands that equal themselves and none of the others. */
  ghost predicate Unlike(op: BinOp, c: seq<Expr>) {
    && AreOperands(op, c)
    && (forall i :: 0 <= i < |c| ==> !IsConstant(c[i]) && ExprEq(c[i], c[i]))
    && (forall i, j :: 0 <= i < |c| && 0 <= j < |c| && i != j ==> !ExprEq(c[i], c[j]))
  }

  /** The operands of `e1` are those of `e` from `lo` to `hi`, and the ones before
      them are cancelled already. */
  lemma {:induction false} PartCancels(op: BinOp, e1: Expr, e: Expr, lo: nat, hi: nat)
    requires var c := OperandsOf(op, e); lo <= hi <= |c| && c[lo..hi] == OperandsOf(op, e1) && Unlike(op, c)
    ensures Cancelled(op, e1, e, lo, hi)
  {
    hide Unlike, Cancelled;
    var c := OperandsOf(op, e);
    if IsOp(op, e1) {
      var mid := lo + |OperandsOf(op, e1.fst)|;
      assert c[lo..mid] == c[lo..hi][..mid - lo] == OperandsOf(op, e1.fst);
      assert c[mid..hi] == c[lo..hi][mid - lo..] == OperandsOf(op, e1.snd);
      PartCancels(op, e1.fst, e, lo, mid);
      PartCancels(op, e1.snd, e, mid, hi);
      CancelledBoth(op, e1, e, lo, mid, hi);
    } else {
      assert c[lo] == c[lo..hi][0] == e1;
      OperandCancels(op, e, lo);
    }
  }

  ghost predicate Cancelled(op: BinOp, e1: Expr, e: Expr, lo: nat, hi: nat) {
    var c := OperandsOf(op, e);
    var (a, b) := ElimEq(op, e1, Rebuilt(op, e, Blanks(op, c, lo)));
    ElimYn(a) == Neutral(op) && b == Rebuilt(op, e, Blanks(op, c, hi))
  }

  lemma CancelledBoth(op: BinOp, e1: Expr, e: Expr, lo: nat, mid: nat, hi: nat)
    requires IsOp(op, e1) && Cancelled(op, e1.fst, e, lo, mid) && Cancelled(op, e1.snd, e, mid, hi)
    ensures Cancelled(op, e1, e, lo, hi)
  {
    hide ExprEq, Rebuilt, Blanks;
  }

  lemma OperandCancels(op: BinOp, e: Expr, k: nat)
    requires k < |OperandsOf(op, e)| && Unlike(op, OperandsOf(op, e))
    ensures Cancelled(op, OperandsOf(op, e)[k], e, k, k + 1)
  {
    hide ExprEq, Rebuilt, ElimEq;
    var c := OperandsOf(op, e);
    BlanksAre(op, c, k);
    OneCancels(op, c[k], e, Blanks(op, c, k), k);
    assert Blanks(op, c, k)[k := Neutral(op)] == Blanks(op, c, k + 1);
  }

  lemma BlanksAre(op: BinOp, c: seq<Expr>, k: nat)
    requires k < |c| && Unlike(op, c)
    ensures AreOperands(op, Blanks(op, c, k))
    ensures forall j :: 0 <= j < |c| && j != k ==> !ExprEq(c[k], Blanks(op, c, k)[j])
  {
    assert forall x :: ExprEq(x, Neutral(op)) ==> x == Neutral(op);
    hide ExprEq;
  }

  lemma {:induction false} BlankRow(op: BinOp, e: Expr, c: seq<Expr>)
    requires |c| == |OperandsOf(op, e)| && forall i :: 0 <= i < |c| ==> c[i] == Neutral(op)
    ensures ElimYn(Rebuilt(op, e, c)) == Neutral(op)
  {
    if IsOp(op, e) {
      var n := |OperandsOf(op, e.fst)|;
      BlankRow(op, e.fst, c[..n]);
      BlankRow(op, e.snd, c[n..]);
    }
  }

  /** Without duplicates and constants everything cancels. */
  lemma {:induction false} SelfCancels(e: Expr)
    requires e.Bin? && Normal(e) && Deduped(e) && Stable(e)
    ensures EliminateEq(e, e) == (Neutral(e.op), Neutral(e.op))
    decreases Size(e), 1
  {
    hide Stable, ExprEq, Rebuilt, Unlike, Deduped;
    var op, c := e.op, OperandsOf(e.op, e);
    UnlikeOperands(e);
    assert Blanks(op, c, 0) == c && c[0..|c|] == c;
    RebuiltSame(op, e);
    PartCancels(op, e, e, 0, |c|);
    BlankRow(op, e, Blanks(op, c, |c|));
    RebuiltSize(op, e, Blanks(op, c, |c|));
  }

  lemma {:induction false} UnlikeOperands(e: Expr)
    requires e.Bin? && Normal(e) && Deduped(e) && Stable(e)
    ensures Unlike(e.op, OperandsOf(e.op, e))
    decreases Size(e), 0
  {
    hide Stable, ExprEq;
    var op, c := e.op, OperandsOf(e.op, e);
    OperandsAreSmaller(op, e);
    StableOperands(op, e);
    NormalOperands(op, e);
    forall i | 0 <= i < |c|
      ensures ExprEq(c[i], c[i]) && !IsConstant(c[i])
    {
      assert c[i] in c;
      EqualsItself(c[i]);
    }
    forall i, j | 0 <= i < |c| && 0 <= j < |c| && i != j
      ensures !ExprEq(c[i], c[j])
    {
      assert Join(op, c[i], c[j]).None?;
    }
  }

  lemma {:induction false} EqualsItself(e: Expr)
    requires Normal(e) && Deduped(e) && Stable(e)
    ensures ExprEq(e, e)
    decreases Size(e), 2
  {
    hide Stable, EliminateEq, Deduped;
    if e.Bin? { SelfCancels(e); }
  }

  // ---------- A test and its conjunction with y ----------

  /** `e` && y. */
  function WithYes(e: Expr): Expr {
    Bin(AndOp, e, EXPR_YES)
  }

  /** Of the operands of `e1` at most one cancels against `x` in x && y. */
  lemma {:induction false} AtMostOneCancels(e1: Expr, x: Expr)
    requires Stable(e1) && !IsConstant(e1) && !IsOp(AndOp, x)
    ensures
      var (a, b) := ElimEq(AndOp, e1, WithYes(x));
      || (a == e1 && b == WithYes(x))
      || (b == WithYes(EXPR_YES) && (e1.Bin? && e1.op.AndOp? ==> !IsConstant(ElimYn(a))))
  {
    hide ExprEq;
    if IsOp(AndOp, e1) {
      StableParts(e1);
      AtMostOneCancels(e1.fst, x);
      AtMostOneCancels(e1.snd, x);
      AtMostOneCancels(e1.snd, EXPR_YES);
      YesCancelsNothing(e1.snd);
    } else {
      EqualsConstant(e1);
    }
  }

  lemma StableParts(e: Expr)
    requires e.Bin? && Stable(e)
    ensures Stable(e.fst) && Stable(e.snd) && !IsConstant(e.fst) && !IsConstant(e.snd)
  {
  }

  lemma EqualsConstant(e: Expr)
    ensures ExprEq(e, EXPR_YES) ==> e == EXPR_YES
    ensures ExprEq(EXPR_YES, e) ==> e == EXPR_YES
  {
  }

  lemma {:induction false} YesCancelsNothing(e: Expr)
    requires Stable(e) && !IsConstant(e)
    ensures ElimEq(AndOp, e, WithYes(EXPR_YES)) == (e, WithYes(EXPR_YES))
  {
    hide ExprEq;
    if IsOp(AndOp, e) {
      StableParts(e);
      YesCancelsNothing(e.fst);
      YesCancelsNothing(e.snd);
    } else {
      EqualsConstant(e);
    }
  }

  /** So no operand of an || equals the whole || in conjunction with y. */
  lemma UnlikeWithYes(t: Expr, x: Expr)
    requires Stable(t) && !IsConstant(t) && !IsOp(AndOp, x)
    ensures !ExprEq(t, WithYes(x))
  {
    if IsOp(AndOp, t) {
      hide ExprEq, ElimEq;
      AtMostOneCancels(t, x);
      var (a, b) := ElimEq(AndOp, t, WithYes(x));
      assert EliminateEq(t, WithYes(x)) == (ElimYn(a), ElimYn(b));
    }
  }

  lemma {:induction false} WholeCancelsNothing(op: BinOp, e1: Expr, e2: Expr)
    requires !IsOp(op, e2) && forall x :: x in OperandsOf(op, e1) ==> !ExprEq(x, e2)
    ensures ElimEq(op, e1, e2) == (e1, e2)
  {
    hide ExprEq;
    if IsOp(op, e1) {
      WholeCancelsNothing(op, e1.fst, e2);
      WholeCancelsNothing(op, e1.snd, e2);
    } else {
      assert e1 in OperandsOf(op, e1);
    }
  }

  /** A test other than an && passes against its conjunction with y. */
  lemma PassesWithYes(t: Expr)
    requires Normal(t) && Deduped(t) && Stable(t) && !IsConstant(t) && !IsOp(AndOp, t)
    ensures NothingLeft(t, WithYes(t))
  {
    hide Deduped, Stable, ExprEq;
    var b := WithYes(t);
    if t.Bin? {
      StableOperands(t.op, t);
      forall x | x in OperandsOf(t.op, t)
        ensures !ExprEq(x, b)
      {
        UnlikeWithYes(x, t);
      }
      WholeCancelsNothing(t.op, t, b);
    }
    EqualsItself(t);
    assert ElimEq(AndOp, t, b) == (EXPR_YES, Bin(AndOp, EXPR_YES, EXPR_YES));
  }

  // ---------- Exactly when the test is right ----------

  /** The test of a visibility that the test `t` passes. */
  function Accepted(t: Expr): Expr {
    if IsOp(AndOp, t) then t else WithYes(t)
  }

  lemma AcceptedFacts(t: Expr)
    requires Normal(t) && Deduped(t) && TwoValued(t) && Stable(t) && !IsConstant(t)
    ensures var b := Accepted(t); Normal(b) && Deduped(b) && TwoValued(b) && NothingLeft(t, b)
  {
    hide ExprEq, ElimEq;
    if IsOp(AndOp, t) {
      SelfCancels(t);
    } else {
      PassesWithYes(t);
      var b := WithYes(t);
      assert OperandsOf(AndOp, b) == [t, EXPR_YES];
      assert Join(AndOp, t, EXPR_YES).None? && Join(AndOp, EXPR_YES, t).None? by { EqualsConstant(t); }
      assert Deduped(EXPR_YES);
    }
  }

  lemma TestOfExplicit(b: Expr)
    requires Normal(b) && Deduped(b) && TwoValued(b)
    ensures TestOf(Some(Explicit(b))) == b
  {
    NormalIsTest(b);
    DeduplicatedFixes(b);
  }

  /** A visibility that the dependency passes against, and that has the value of
      the dependency with every m read as y. */
  lemma SomeVisibilityPasses(dep: Expr, env: Env) returns (vis: Expr)
    requires TriSymbols(dep) && NoBoolIsM(dep) && Admissible(env) && Apart(env, Compared(dep))
    requires !IsConstant(TestOf(Some(dep)))
    ensures TriSymbols(vis) && Compared(vis) <= Compared(dep) && Passes(Some(dep), Some(vis))
    ensures Eval(vis, env) == Eval(dep, ReadMod(env, YES))
  {
    hide TestOf, Normal, Deduped, Stable, NothingLeft;
    var t := TestOf(Some(dep));
    TestFacts(dep);
    TestIsNonzero(Some(dep));
    AcceptedFacts(t);
    var b := Accepted(t);
    TestOfExplicit(b);
    ExplicitFacts(b);
    vis := Explicit(b);
    assert Eval(vis, env) == Eval(b, env) == Eval(t, env) == EvalOpt(Some(dep), ReadMod(env, YES));
  }

  /** `vis` is a visibility against which the dependency passes, fit for the
      assignment. */
  ghost predicate PassesAgainst(dep: Expr, vis: Expr, env: Env) {
    TriSymbols(vis) && Apart(env, Compared(dep) + Compared(vis)) && Passes(Some(dep), Some(vis))
  }

  /** The value is lost when every m is read as y. */
  ghost predicate HoldsByNegatedM(dep: Expr, env: Env) {
    Eval(dep, env) != NO && Eval(dep, ReadMod(env, YES)) == NO
  }

  /** Whatever passes is reachable only where the symbol is visible, unless its
      dependency holds by a negated m and its test is not plainly n. */
  lemma PassingMeansReachable(dep: Expr, vis: Expr, env: Env)
    requires TriSymbols(dep) && Admissible(env) && PassesAgainst(dep, vis, env)
    requires HoldsByNegatedM(dep, env) ==> TestOf(Some(dep)) == EXPR_NO
    ensures Eval(dep, env) != NO ==> Eval(vis, env) != NO
  {
    hide TestOf;
    ReadModKeepsDefinite(vis, env);
    assert ComparedOpt(Some(dep)) + ComparedOpt(Some(vis)) == Compared(dep) + Compared(vis);
    if TestOf(Some(dep)) == EXPR_NO {
      OnlyYesPasses(TestOf(Some(vis)), env);
      TestIsNonzero(Some(vis));
    } else {
      PassingIsCovered(Some(dep), Some(vis));
    }
  }

  /** Nothing cancels against the test n. */
  lemma OnlyYesPasses(base: Expr, env: Env)
    requires Admissible(env) && NothingLeft(EXPR_NO, base)
    ensures Eval(base, env) == YES
  {
    if base.Bin? { NoCancelsNothing(base.op, base); }
    ElimYnKeepsValue(base, env);
  }

  lemma {:induction false} NoCancelsNothing(op: BinOp, e: Expr)
    ensures ElimEq(op, EXPR_NO, e) == (EXPR_NO, e)
  {
    if IsOp(op, e) {
      NoCancelsNothing(op, e.fst);
      NoCancelsNothing(op, e.snd);
    }
  }

  /** In one assignment the test is right for a dependency, against whatever
      visibility it passes, exactly if the dependency does not hold by a negated m
      or its test is plainly n. */
  lemma PassingMeansReachableExactly(dep: Expr, env: Env)
    requires TriSymbols(dep) && NoBoolIsM(dep) && Admissible(env) && Apart(env, Compared(dep))
    ensures
      (forall vis :: PassesAgainst(dep, vis, env) && Eval(dep, env) != NO ==> Eval(vis, env) != NO)
      <==> (HoldsByNegatedM(dep, env) ==> TestOf(Some(dep)) == EXPR_NO)
  {
    hide TestOf, Passes;
    var t := TestOf(Some(dep));
    if HoldsByNegatedM(dep, env) && t != EXPR_NO {
      TestIsNonzero(Some(dep));
      var vis := SomeVisibilityPasses(dep, env);
      assert Compared(dep) + Compared(vis) == Compared(dep);
      assert PassesAgainst(dep, vis, env);
    } else {
      forall vis | PassesAgainst(dep, vis, env)
        ensures Eval(dep, env) != NO ==> Eval(vis, env) != NO
      {
        PassingMeansReachable(dep, vis, env);
      }
    }
  }
}
