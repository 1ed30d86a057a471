/** How the menu code uses the simplifier: symbols occurring in a dependency,
    the "superset" test, and the propagation of a parent's dependency. */
module Dependencies {
  import opened Options
  import opened Tristates
  import opened Exprs
  import opened Equality
  import opened Transforming
  import opened Operands
  import opened Dedup
  import opened Dups

  function ContainsSymbol(e: Expr, s: Sym): bool {
    match e
    case Symbol(t) => t == s
    case Comp(_, l, r) => l == s || r == s
    case Not(a) => ContainsSymbol(a, s)
    case Bin(_, a, b) => ContainsSymbol(a, s) || ContainsSymbol(b, s)
  }

  /** `e` cannot be other than n while `s` is n, judged by && alone. */
  function DependsOnSymbol(e: Expr, s: Sym): bool {
    match e
    case Bin(op, a, b) => op.AndOp? && (DependsOnSymbol(a, s) || DependsOnSymbol(b, s))
    case Symbol(t) => t == s
    case Comp(rel, l, r) =>
      l == s && ((rel.Eq? && (r == SYM_YES || r == SYM_MOD)) || (rel.Ne? && r == SYM_NO))
    case Not(_) => false
  }

  /** The two assignments differ at most in what concerns `s`. */
  ghost predicate AgreeExcept(env1: Env, env2: Env, s: Sym) {
    && (forall t: Sym :: t != s ==> env1.tri(t) == env2.tri(t))
    && (forall t: Sym, u: Sym :: t != s && u != s ==> env1.cmp(t, u) == env2.cmp(t, u))
  }

  /** An expression that does not contain `s` does not notice `s`. */
  lemma {:induction false} ContainsSymbolComplete(e: Expr, s: Sym, env1: Env, env2: Env)
    requires !ContainsSymbol(e, s) && AgreeExcept(env1, env2, s)
    ensures Eval(e, env1) == Eval(e, env2)
  {
    match e
    case Not(a) => ContainsSymbolComplete(a, s, env1, env2);
    case Bin(_, a, b) =>
      ContainsSymbolComplete(a, s, env1, env2);
      ContainsSymbolComplete(b, s, env1, env2);
    case _ =>
  }

  /** An absolute dependency on `s` is n whenever `s` is n. */
  lemma {:induction false} DependsOnSymbolSound(e: Expr, s: Sym, env: Env)
    requires Admissible(env) && IsTriKind(s)
    requires DependsOnSymbol(e, s) && env.tri(s) == NO
    ensures Eval(e, env) == NO
    ensures ContainsSymbol(e, s)
  {
    if e.Bin? {
      if DependsOnSymbol(e.fst, s) { DependsOnSymbolSound(e.fst, s, env); }
      if DependsOnSymbol(e.snd, s) { DependsOnSymbolSound(e.snd, s, env); }
    }
  }

  /** `e` with `t` in the place of `s`. */
  function Renamed(e: Expr, s: Sym, t: Sym): Expr {
    match e
    case Symbol(x) => Symbol(if x == s then t else x)
    case Comp(rel, l, r) => Comp(rel, if l == s then t else l, if r == s then t else r)
    case Not(a) => Not(Renamed(a, s, t))
    case Bin(op, a, b) => Bin(op, Renamed(a, s, t), Renamed(b, s, t))
  }

  /** An expression contains exactly the symbols whose renaming changes it. */
  lemma {:induction false} ContainsSymbolExactly(e: Expr, s: Sym, t: Sym)
    requires s != t
    ensures ContainsSymbol(e, s) <==> Renamed(e, s, t) != e
  {
    match e
    case Not(a) => ContainsSymbolExactly(a, s, t);
    case Bin(_, a, b) =>
      ContainsSymbolExactly(a, s, t);
      ContainsSymbolExactly(b, s, t);
    case _ =>
  }

  /** The symbol itself, or its test to be y, to be m, or not to be n. */
  predicate IsSymbolTest(x: Expr, s: Sym) {
    x == Symbol(s) || x == Comp(Eq, s, SYM_YES) || x == Comp(Eq, s, SYM_MOD) || x == Comp(Ne, s, SYM_NO)
  }

  ghost predicate HasSymbolTest(c: seq<Expr>, s: Sym) {
    exists i :: 0 <= i < |c| && IsSymbolTest(c[i], s)
  }

  /** An expression depends absolutely on exactly the symbols that stand so among its
      operands of &&. */
  lemma {:induction false} DependsOnSymbolExactly(e: Expr, s: Sym)
    ensures DependsOnSymbol(e, s) <==> HasSymbolTest(OperandsOf(AndOp, e), s)
  {
    if IsOp(AndOp, e) {
      DependsOnSymbolExactly(e.fst, s);
      DependsOnSymbolExactly(e.snd, s);
      TestOfEither(OperandsOf(AndOp, e.fst), OperandsOf(AndOp, e.snd), s);
    } else {
      assert OperandsOf(AndOp, e)[0] == e;
    }
  }

  lemma TestOfEither(a: seq<Expr>, b: seq<Expr>, s: Sym)
    ensures HasSymbolTest(a + b, s) <==> HasSymbolTest(a, s) || HasSymbolTest(b, s)
  {
    hide IsSymbolTest;
    var c := a + b;
    assert forall i :: 0 <= i < |a| ==> c[i] == a[i];
    assert forall i :: 0 <= i < |b| ==> c[|a| + i] == b[i];
    if i :| 0 <= i < |c| && IsSymbolTest(c[i], s) {
      assert if i < |a| then IsSymbolTest(a[i], s) else IsSymbolTest(b[i - |a|], s);
    }
    if i :| 0 <= i < |a| && IsSymbolTest(a[i], s) { assert IsSymbolTest(c[i], s); }
    if i :| 0 <= i < |b| && IsSymbolTest(b[i], s) { assert IsSymbolTest(c[|a| + i], s); }
  }

  // ---------- The superset test ----------

  /** A bare symbol other than a bool, a tristate or a constant has no "is not
      n" reading: the test says nothing about it. */
  predicate TriSymbolsOpt(e: Option<Expr>) {
    e.Some? ==> TriSymbols(e.value)
  }

  /** `r` is "`e` is not n", every m of `e` counting as y. */
  ghost predicate IsNonzeroTest(e: Option<Expr>, r: Expr) {
    && Compared(r) <= ComparedOpt(e)
    && (TriSymbolsOpt(e) ==>
          forall env: Env :: Admissible(env) && Apart(env, ComparedOpt(e)) ==> Eval(r, env) == EvalOpt(e, ReadMod(env, YES)))
  }

  /** The comparison "is not n", simplified. */
  function TestOf(e: Option<Expr>): Expr {
    Deduplicated(Transform(TransCompareOpt(e, Ne, SYM_NO)))
  }

  lemma TestIsNonzero(e: Option<Expr>)
    ensures IsNonzeroTest(e, TestOf(e))
  {
    var c := TransCompareOpt(e, Ne, SYM_NO);
    if e.Some? {
      TransCompareCompared(e.value, Ne, SYM_NO);
    }
    TransformCompared(c);
    DeduplicatedFacts(Transform(c));
    if TriSymbolsOpt(e) {
      forall env: Env | Admissible(env) && Apart(env, ComparedOpt(e))
        ensures Eval(TestOf(e), env) == EvalOpt(e, ReadMod(env, YES))
      {
        TransformKeepsValue(c, env);
        if e.Some? {
          TransCompareMeaning(e.value, Ne, SYM_NO, env);
        }
      }
    }
  }

  method NonzeroTest(e: Option<Expr>, count: Counter) returns (r: Expr)
    modifies count
    ensures r == TestOf(e) && IsNonzeroTest(e, r) && count.n == old(count.n)
  {
    r := EliminateDups(Transform(TransCompareOpt(e, Ne, SYM_NO)), count);
    TestIsNonzero(e);
  }

  /** With every m read as y, `dep` never exceeds `vis`. */
  ghost predicate Covered(dep: Option<Expr>, vis: Option<Expr>) {
    TriSymbolsOpt(dep) && TriSymbolsOpt(vis) ==>
      forall env: Env :: Admissible(env) && Apart(env, ComparedOpt(dep) + ComparedOpt(vis)) ==>
        EvalOpt(dep, ReadMod(env, YES)) <= EvalOpt(vis, ReadMod(env, YES))
  }

  /** The test of an entry's dependency leaves nothing of the test `base` of the
      symbol's visibility. */
  predicate NothingLeft(test: Expr, base: Expr) {
    EliminateEq(test, base).1 == EXPR_YES
  }

  /** The "superset" test. */
  predicate Passes(dep: Option<Expr>, vis: Option<Expr>) {
    NothingLeft(TestOf(dep), TestOf(vis))
  }

  lemma PassingIsCovered(dep: Option<Expr>, vis: Option<Expr>)
    requires Passes(dep, vis)
    ensures Covered(dep, vis)
  {
    TestIsNonzero(dep);
    TestIsNonzero(vis);
    if TriSymbolsOpt(dep) && TriSymbolsOpt(vis) {
      forall env: Env | Admissible(env) && Apart(env, ComparedOpt(dep) + ComparedOpt(vis))
        ensures EvalOpt(dep, ReadMod(env, YES)) <= EvalOpt(vis, ReadMod(env, YES))
      {
        EliminateEqReflectsOrder(TestOf(dep), TestOf(vis), env);
        assert Apart(env, ComparedOpt(dep)) && Apart(env, ComparedOpt(vis));
      }
    }
  }

  /** The entry's dependency is made two-valued, simplified, and stripped of the
      operands it shares with `base`, the two-valued visibility of the symbol.
      The answer is yes exactly when nothing is left of `base`; then the
      visibility covers the dependency. */
  method IsSuperset(dep: Option<Expr>, base: Expr, ghost vis: Option<Expr>, count: Counter) returns (b: bool)
    requires base == TestOf(vis)
    modifies count
    ensures b <==> Passes(dep, vis)
    ensures b ==> Covered(dep, vis)
    ensures count.n == old(count.n)
  {
    hide IsNonzeroTest, TestOf, Covered;
    var test := NonzeroTest(dep, count);
    var (_, rest) := EliminateEq(test, base);
    b := rest == EXPR_YES;
    if b {
      PassingIsCovered(dep, vis);
    }
  }

  // ---------- What the test means where symbols are m ----------

  /** No bare symbol below an odd number of `!` is m; `odd` tells how many there
      are above `e`. */
  ghost predicate NoOddMod(e: Expr, env: Env, odd: bool) {
    match e
    case Symbol(s) => odd ==> env.tri(s) != MOD
    case Comp(_, _, _) => true
    case Not(a) => NoOddMod(a, env, !odd)
    case Bin(_, a, b) => NoOddMod(a, env, odd) && NoOddMod(b, env, odd)
  }

  lemma {:induction false} ReadModRaises(e: Expr, env: Env, odd: bool)
    requires NoOddMod(e, env, odd)
    ensures
      var x, y := Eval(e, env), Eval(e, ReadMod(env, YES));
      if odd then y <= x else x <= y
  {
    match e
    case Not(a) => ReadModRaises(a, env, !odd);
    case Bin(_, a, b) =>
      ReadModRaises(a, env, odd);
      ReadModRaises(b, env, odd);
    case _ =>
  }

  /** A value other than m does not depend on how m is read. */
  lemma {:induction false} ReadModKeepsDefinite(e: Expr, env: Env)
    ensures Eval(e, env) != MOD ==> Eval(e, ReadMod(env, YES)) == Eval(e, env)
  {
    match e
    case Not(a) => ReadModKeepsDefinite(a, env);
    case Bin(_, a, b) =>
      ReadModKeepsDefinite(a, env);
      ReadModKeepsDefinite(b, env);
    case _ =>
  }

  /** An entry covered by a symbol's visibility is reachable only where the
      symbol is visible, unless its dependency holds by a negated m. */
  lemma CoveredMeansReachable(dep: Expr, vis: Expr, env: Env)
    requires TriSymbols(dep) && TriSymbols(vis) && Covered(Some(dep), Some(vis))
    requires Admissible(env) && Apart(env, Compared(dep) + Compared(vis)) && NoOddMod(dep, env, false)
    ensures Eval(dep, env) != NO ==> Eval(vis, env) != NO
  {
    ReadModRaises(dep, env, false);
    ReadModKeepsDefinite(vis, env);
    assert ComparedOpt(Some(dep)) + ComparedOpt(Some(vis)) == Compared(dep) + Compared(vis);
  }

  // ---------- Propagation to child entries ----------

  /** A missing operand leaves the other one. */
  function AllocAnd(a: Option<Expr>, b: Option<Expr>): Option<Expr> {
    if a.None? then b else if b.None? then a else Some(Bin(AndOp, a.value, b.value))
  }

  /** Bare `m` becomes `m && MODULES`. */
  function RewriteM(e: Expr, modules: Sym): Expr {
    match e
    case Not(a) => Not(RewriteM(a, modules))
    case Bin(op, a, b) => Bin(op, RewriteM(a, modules), RewriteM(b, modules))
    case Symbol(s) => if s == SYM_MOD then Bin(AndOp, e, Symbol(modules)) else e
    case Comp(_, _, _) => e
  }

  function RewriteTransform(e: Option<Expr>, modules: Sym): Option<Expr> {
    if e.None? then None else Some(Transform(RewriteM(e.value, modules)))
  }

  /** The assignment in which the constant m itself is bounded by `modules`. */
  ghost function BoundedMod(env: Env, modules: Sym): (r: Env)
    ensures forall s: Sym :: r.tri(s) == if s == SYM_MOD then TriAnd(MOD, env.tri(modules)) else env.tri(s)
    ensures r.cmp == env.cmp
  {
    Env((s: Sym) => var v: Tristate := if s == SYM_MOD then TriAnd(MOD, env.tri(modules)) else env.tri(s); v, env.cmp)
  }

  /** Without modules a written m means n, otherwise m. */
  lemma {:induction false} RewriteMMeaning(e: Expr, modules: Sym, env: Env)
    requires Admissible(env)
    ensures Eval(RewriteM(e, modules), env) == Eval(e, BoundedMod(env, modules))
  {
    match e
    case Not(a) => RewriteMMeaning(a, modules, env);
    case Bin(_, a, b) =>
      RewriteMMeaning(a, modules, env);
      RewriteMMeaning(b, modules, env);
    case _ =>
  }

  predicate NormalOpt(e: Option<Expr>) {
    e.Some? ==> Normal(e.value)
  }

  /** `r` is the conjunction of the inherited dependency and the entry's own. */
  ghost predicate IsPropagated(inherited: Option<Expr>, own: Option<Expr>, modules: Sym, r: Option<Expr>) {
    && (NormalOpt(inherited) ==> NormalOpt(r))
    && ComparedOpt(r) <= ComparedOpt(inherited) + ComparedOpt(own)
    && forall env: Env :: Admissible(env) && Apart(env, ComparedOpt(inherited) + ComparedOpt(own)) ==>
         EvalOpt(r, env) == TriAnd(EvalOpt(inherited, env), EvalOpt(own, BoundedMod(env, modules)))
  }

  lemma {:induction false} RewriteMCompared(e: Expr, modules: Sym)
    ensures Compared(RewriteM(e, modules)) == Compared(e)
  {
    match e
    case Not(a) => RewriteMCompared(a, modules);
    case Bin(_, a, b) =>
      RewriteMCompared(a, modules);
      RewriteMCompared(b, modules);
    case _ =>
  }

  lemma ConjoinedMeaning(inherited: Option<Expr>, own: Option<Expr>, modules: Sym, env: Env)
    requires Admissible(env)
    ensures
      var both := AllocAnd(inherited, RewriteTransform(own, modules));
      EvalOpt(both, env) == TriAnd(EvalOpt(inherited, env), EvalOpt(own, BoundedMod(env, modules)))
  {
    if own.Some? {
      TransformKeepsValue(RewriteM(own.value, modules), env);
      RewriteMMeaning(own.value, modules, env);
    }
  }

  lemma ConjoinedCompared(inherited: Option<Expr>, own: Option<Expr>, modules: Sym)
    ensures ComparedOpt(AllocAnd(inherited, RewriteTransform(own, modules))) <= ComparedOpt(inherited) + ComparedOpt(own)
  {
    if own.Some? {
      TransformCompared(RewriteM(own.value, modules));
      RewriteMCompared(own.value, modules);
    }
  }

  method Propagate(inherited: Option<Expr>, own: Option<Expr>, modules: Sym, count: Counter) returns (r: Option<Expr>)
    modifies count
    ensures IsPropagated(inherited, own, modules, r) && count.n == old(count.n)
    ensures r.None? <==> inherited.None? && own.None?
    ensures inherited.Some? && own.Some? ==>
      r == Some(Deduplicated(Bin(AndOp, inherited.value, Transform(RewriteM(own.value, modules)))))
    ensures inherited.None? && own.Some? ==> r == Some(Deduplicated(Transform(RewriteM(own.value, modules))))
    ensures inherited.Some? && own.None? ==> r == Some(Deduplicated(inherited.value))
    ensures r.Some? ==> Irredundant(r.value)
  {
    var t := RewriteTransform(own, modules);
    var both := AllocAnd(inherited, t);
    ConjoinedCompared(inherited, own, modules);
    if both.None? {
      r := None;
    } else {
      var d := EliminateDups(both.value, count);
      r := Some(d);
    }
    forall env: Env | Admissible(env) && Apart(env, ComparedOpt(inherited) + ComparedOpt(own))
      ensures EvalOpt(r, env) == TriAnd(EvalOpt(inherited, env), EvalOpt(own, BoundedMod(env, modules)))
    {
      ConjoinedMeaning(inherited, own, modules, env);
      assert Apart(env, ComparedOpt(both));
    }
  }

  /** The same up to "is not n", which is all that counts for the prompt of a
      symbol that is not tristate: its visibility is n or y. */
  ghost predicate IsPropagatedBool(inherited: Option<Expr>, own: Option<Expr>, modules: Sym, r: Option<Expr>) {
    && ComparedOpt(r) <= ComparedOpt(inherited) + ComparedOpt(own)
    && (NormalOpt(inherited) ==>
          && NormalOpt(r)
          && forall env: Env :: Admissible(env) && Apart(env, ComparedOpt(inherited) + ComparedOpt(own)) ==>
               var v := TriAnd(EvalOpt(inherited, env), EvalOpt(own, BoundedMod(env, modules)));
               EvalOpt(r, env) <= v && (EvalOpt(r, env) == NO <==> v == NO))
  }

  method PropagateBool(inherited: Option<Expr>, own: Option<Expr>, modules: Sym, count: Counter) returns (r: Option<Expr>)
    modifies count
    ensures IsPropagatedBool(inherited, own, modules, r) && count.n == old(count.n)
    ensures r.None? <==> inherited.None? && own.None?
    ensures r.Some? ==> NoTestAgainstNo(r.value)
  {
    var d := Propagate(inherited, own, modules, count);
    r := if d.None? then None else Some(TransBool(d.value));
    if d.Some? {
      TransBoolCompared(d.value);
      TransBoolRemovesTests(d.value);
    }
    if NormalOpt(inherited) && d.Some? {
      forall env: Env | Admissible(env)
        ensures EvalOpt(r, env) <= EvalOpt(d, env) && (EvalOpt(r, env) == NO <==> EvalOpt(d, env) == NO)
      {
        TransBoolKeepsNonzero(d.value, env);
      }
      TransBoolKeepsNormal(d.value);
    }
  }
}
