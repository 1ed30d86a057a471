/** The rules that replace two operands of || or && by one. */
module Joining {
  import opened Options
  import opened Tristates
  import opened Exprs
  import opened Equality
  import opened Transforming

  /** The symbol a plain operand is about, if it has the right shape. */
  function PlainSym(e: Expr): Option<Sym> {
    match e
    case Symbol(s) => Some(s)
    case Comp(rel, l, _) => if rel.Eq? || rel.Ne? then Some(l) else None
    case _ => None
  }

  function FirstSym(e: Expr): Option<Sym> {
    if e.Not? then PlainSym(e.arg) else PlainSym(e)
  }

  /** Under `!` the second operand must be a bare symbol. */
  function SecondSym(e: Expr): Option<Sym> {
    if e.Not? then (if e.arg.Symbol? then Some(e.arg.sym) else None) else PlainSym(e)
  }

  /** Both operands compare with `rel`, one against `b` and one against `c`. */
  predicate BothCompare(e1: Expr, e2: Expr, rel: Rel, b: Sym, c: Sym) {
    && e1.Comp? && e2.Comp? && e1.rel == rel && e2.rel == rel
    && ((e1.right == b && e2.right == c) || (e1.right == c && e2.right == b))
  }

  /** One operand is a bare symbol, the other compares with `rel` against `c`. */
  predicate SymbolAndCompare(e1: Expr, e2: Expr, rel: Rel, c: Sym) {
    || (e1.Symbol? && e2.Comp? && e2.rel == rel && e2.right == c)
    || (e2.Symbol? && e1.Comp? && e1.rel == rel && e1.right == c)
  }

  predicate NotOfSymbol(e: Expr) {
    e.Not? && e.arg.Symbol?
  }

  /** e1 || e2 -> ? */
  function JoinOr(e1: Expr, e2: Expr): Option<Expr> {
    if ExprEq(e1, e2) then Some(e1)
    else
      var s1 := FirstSym(e1);
      if s1.None? || s1 != SecondSym(e2) then None
      else
        var s := s1.value;
        if !IsTriKind(s) then None
        else if s.kind.TristateKind? && BothCompare(e1, e2, Eq, SYM_YES, SYM_MOD) then
          Some(Comp(Ne, s, SYM_NO))
        else if s.kind.TristateKind? && BothCompare(e1, e2, Eq, SYM_YES, SYM_NO) then
          Some(Comp(Ne, s, SYM_MOD))
        else if s.kind.TristateKind? && BothCompare(e1, e2, Eq, SYM_MOD, SYM_NO) then
          Some(Comp(Ne, s, SYM_YES))
        else if s.kind.Boolean? && ((NotOfSymbol(e1) && e2.Symbol?) || (NotOfSymbol(e2) && e1.Symbol?)) then
          Some(EXPR_YES)
        else None
  }

  /** e1 && e2 -> ? */
  function JoinAnd(e1: Expr, e2: Expr): Option<Expr> {
    if ExprEq(e1, e2) then Some(e1)
    else
      var s1 := FirstSym(e1);
      if s1.None? || s1 != SecondSym(e2) then None
      else
        var s := s1.value;
        if !IsTriKind(s) then None
        else if SymbolAndCompare(e1, e2, Eq, SYM_YES) then Some(Comp(Eq, s, SYM_YES))
        else if SymbolAndCompare(e1, e2, Ne, SYM_NO) then Some(Symbol(s))
        else if SymbolAndCompare(e1, e2, Ne, SYM_MOD) then Some(Comp(Eq, s, SYM_YES))
        else if s.kind.Boolean? then None
        else if e1.Comp? && e2.Comp? && e1.rel.Eq? && e2.rel.Ne? && IsConst(e1.right) && IsConst(e2.right) then
          Some(if e1.right != e2.right then Comp(Eq, s, e1.right) else EXPR_NO)
        else if e1.Comp? && e2.Comp? && e1.rel.Ne? && e2.rel.Eq? && IsConst(e1.right) && IsConst(e2.right) then
          Some(if e1.right != e2.right then Comp(Eq, s, e2.right) else EXPR_NO)
        else if BothCompare(e1, e2, Ne, SYM_YES, SYM_NO) then Some(Comp(Eq, s, SYM_MOD))
        else if BothCompare(e1, e2, Ne, SYM_YES, SYM_MOD) then Some(Comp(Eq, s, SYM_NO))
        else if BothCompare(e1, e2, Ne, SYM_MOD, SYM_NO) then Some(Comp(Eq, s, SYM_YES))
        else None
  }

  function Join(op: BinOp, e1: Expr, e2: Expr): Option<Expr> {
    if op.OrOp? then JoinOr(e1, e2) else JoinAnd(e1, e2)
  }

  /** A join stands for both operands, in every admissible assignment that keeps
      the constants apart with which they compare. */
  lemma JoinKeepsValue(op: BinOp, e1: Expr, e2: Expr, env: Env)
    requires Admissible(env) && Join(op, e1, e2).Some?
    requires Apart(env, Compared(e1) + Compared(e2))
    ensures Eval(Join(op, e1, e2).value, env) == Apply(op, Eval(e1, env), Eval(e2, env))
  {
    hide ExprEq;
    if ExprEq(e1, e2) {
      ExprEqSound(e1, e2, env);
    } else if op.OrOp? {
      OrKeepsValue(e1, e2, env);
    } else {
      if e1.Comp? && e2.Comp? && IsConst(e1.right) && IsConst(e2.right) && e1.right != e2.right {
        if e1.left == e2.left && e1.left.kind.TristateKind? { ConstantsApart(e1, e2, env); }
      }
      AndKeepsValue(e1, e2, env);
    }
  }

  lemma OrKeepsValue(e1: Expr, e2: Expr, env: Env)
    requires Admissible(env) && JoinOr(e1, e2).Some? && !ExprEq(e1, e2)
    ensures Eval(JoinOr(e1, e2).value, env) == TriOr(Eval(e1, env), Eval(e2, env))
  {
    hide ExprEq;
  }

  lemma AndKeepsValue(e1: Expr, e2: Expr, env: Env)
    requires Admissible(env) && JoinAnd(e1, e2).Some? && !ExprEq(e1, e2)
    requires
      (e1.Comp? && e2.Comp? && e1.left == e2.left && e1.left.kind.TristateKind?
       && IsConst(e1.right) && IsConst(e2.right) && e1.right != e2.right) ==>
        !(env.cmp(e1.left, e1.right) == 0 && env.cmp(e2.left, e2.right) == 0)
    ensures Eval(JoinAnd(e1, e2).value, env) == TriAnd(Eval(e1, env), Eval(e2, env))
  {
    hide ExprEq;
  }

  lemma ConstantsApart(e1: Expr, e2: Expr, env: Env)
    requires Admissible(env) && e1.Comp? && e2.Comp? && e1.left == e2.left && e1.left.kind.TristateKind?
    requires IsConst(e1.right) && IsConst(e2.right) && e1.right != e2.right
    requires Apart(env, Compared(e1) + Compared(e2))
    ensures !(env.cmp(e1.left, e1.right) == 0 && env.cmp(e1.left, e2.right) == 0)
  {
    var pairs := Compared(e1) + Compared(e2);
    if !IsTriConst(e1.right) {
      assert (e1.left, e1.right) in pairs;
      assert IsTriConst(e2.right) || (e1.left, e2.right) in pairs;
    } else if !IsTriConst(e2.right) {
      assert (e1.left, e2.right) in pairs;
    }
  }

  /** Joining compares with nothing new but y, m and n. */
  lemma JoinCompared(op: BinOp, e1: Expr, e2: Expr)
    requires Join(op, e1, e2).Some?
    ensures Compared(Join(op, e1, e2).value) <= Compared(e1) + Compared(e2)
  {
  }

  /** A join is again an operand of `op`, and with the neutral operand planted
      in the other place the pair does not grow. */
  lemma JoinShape(op: BinOp, e1: Expr, e2: Expr)
    requires !IsOp(op, e1) && Join(op, e1, e2).Some?
    ensures !IsOp(op, Join(op, e1, e2).value)
    ensures Size(Join(op, e1, e2).value) <= Size(e1)
  {
  }

  /** Joining keeps the normal form. */
  lemma JoinKeepsNormal(op: BinOp, e1: Expr, e2: Expr)
    requires Normal(e1) && Normal(e2) && Join(op, e1, e2).Some?
    ensures Normal(Join(op, e1, e2).value)
  {
  }

  // ---------- Exactly which pairs join ----------

  /** The pairs that `||` joins, in one order: two equations of a tristate symbol with
      different ones of y, m and n, and a bool symbol with its negation. */
  predicate OrRule(e1: Expr, e2: Expr) {
    || (e1.Comp? && e1.rel == Eq && e2.Comp? && e2.rel == Eq && e1.left == e2.left && e1.left.kind == TristateKind
        && e1.right != e2.right && e1.right in {SYM_YES, SYM_MOD, SYM_NO} && e2.right in {SYM_YES, SYM_MOD, SYM_NO})
    || (e1.Symbol? && e1.sym.kind == Boolean && e2 == Not(e1))
  }

  /** The pairs that && joins, in one order: a bool or tristate symbol with its test for
      y, against n or against m; an equation of a tristate symbol with an inequation,
      whatever the constants are; two inequations of it with different ones of y, m
      and n. */
  predicate AndRule(e1: Expr, e2: Expr) {
    || (e1.Symbol? && e1.sym.kind in {Boolean, TristateKind}
        && e2 in {Comp(Eq, e1.sym, SYM_YES), Comp(Ne, e1.sym, SYM_NO), Comp(Ne, e1.sym, SYM_MOD)})
    || (e1.Comp? && e1.rel == Eq && e2.Comp? && e2.rel == Ne && e1.left == e2.left && e1.left.kind == TristateKind
        && IsConst(e1.right) && IsConst(e2.right))
    || (e1.Comp? && e1.rel == Ne && e2.Comp? && e2.rel == Ne && e1.left == e2.left && e1.left.kind == TristateKind
        && e1.right != e2.right && e1.right in {SYM_YES, SYM_MOD, SYM_NO} && e2.right in {SYM_YES, SYM_MOD, SYM_NO})
  }

  /** Two operands join exactly if they are equal, or a rule has them, in either order. */
  lemma JoinsExactly(op: BinOp, e1: Expr, e2: Expr)
    ensures Join(op, e1, e2).Some? <==>
      ExprEq(e1, e2) || (if op.OrOp? then OrRule(e1, e2) || OrRule(e2, e1) else AndRule(e1, e2) || AndRule(e2, e1))
  {
    hide ExprEq;
    if op.OrOp? { OrJoinsExactly(e1, e2); } else { AndJoinsExactly(e1, e2); }
  }

  lemma OrJoinsExactly(e1: Expr, e2: Expr)
    ensures JoinOr(e1, e2).Some? <==> ExprEq(e1, e2) || OrRule(e1, e2) || OrRule(e2, e1)
  {
    hide ExprEq;
  }

  lemma AndJoinsExactly(e1: Expr, e2: Expr)
    ensures JoinAnd(e1, e2).Some? <==> ExprEq(e1, e2) || AndRule(e1, e2) || AndRule(e2, e1)
  {
    hide ExprEq;
  }
}
