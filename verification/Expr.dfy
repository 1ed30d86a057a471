/** Dependency expressions and their meaning. */
module Exprs {
  import opened Options
  import opened Tristates

  datatype SymKind = Unknown | Boolean | TristateKind | Int | Hex | Str | Other

  /** A symbol is identified by its number; its type and constness are fixed. */
  datatype Sym = Sym(id: nat, kind: SymKind, konst: bool)

  /** The three constants. Their numbers are their values. */
  const SYM_NO := Sym(0, Unknown, true)
  const SYM_MOD := Sym(1, Unknown, true)
  const SYM_YES := Sym(2, Unknown, true)

  datatype Rel = Eq | Ne | Lt | Le | Gt | Ge

  datatype BinOp = OrOp | AndOp

  datatype Expr =
    | Symbol(sym: Sym)
    | Comp(rel: Rel, left: Sym, right: Sym)
    | Not(arg: Expr)
    | Bin(op: BinOp, fst: Expr, snd: Expr)

  const EXPR_NO := Symbol(SYM_NO)
  const EXPR_YES := Symbol(SYM_YES)

  predicate IsTriConst(s: Sym) {
    s == SYM_NO || s == SYM_MOD || s == SYM_YES
  }

  /** Constants, unlike configured symbols, have no type. */
  predicate IsConst(s: Sym) {
    s.konst && s.kind.Unknown?
  }

  predicate IsTriKind(s: Sym) {
    s.kind.Boolean? || s.kind.TristateKind?
  }

  predicate IsOp(op: BinOp, e: Expr) {
    e.Bin? && e.op == op
  }

  /** The operand that `op` ignores: y for &&, n for ||. */
  function Neutral(op: BinOp): Expr {
    if op.AndOp? then EXPR_YES else EXPR_NO
  }

  /** The operand that decides `op`: n for &&, y for ||. */
  function Absorbing(op: BinOp): Expr {
    if op.AndOp? then EXPR_NO else EXPR_YES
  }

  function Size(e: Expr): (n: nat)
    ensures n >= 1
  {
    match e
    case Symbol(_) => 1
    case Comp(_, _, _) => 1
    case Not(a) => 1 + Size(a)
    case Bin(_, a, b) => 1 + Size(a) + Size(b)
  }

  // ---------- Meaning ----------

  /** One assignment: the tristate value of every symbol, and for every pair of
      symbols the sign of the comparison of their string values. */
  datatype Env = Env(tri: Sym -> Tristate, cmp: (Sym, Sym) -> int)

  function Holds(rel: Rel, sign: int): bool {
    match rel
    case Eq => sign == 0
    case Ne => sign != 0
    case Lt => sign < 0
    case Le => sign <= 0
    case Gt => sign > 0
    case Ge => sign >= 0
  }

  function Apply(op: BinOp, a: Tristate, b: Tristate): Tristate {
    if op.AndOp? then TriAnd(a, b) else TriOr(a, b)
  }

  function Eval(e: Expr, env: Env): Tristate {
    match e
    case Symbol(s) => env.tri(s)
    case Comp(rel, l, r) => if Holds(rel, env.cmp(l, r)) then YES else NO
    case Not(a) => TriNot(Eval(a, env))
    case Bin(op, a, b) => Apply(op, Eval(a, env), Eval(b, env))
  }

  /** The value of an optional expression; a missing one counts as y. */
  function EvalOpt(e: Option<Expr>, env: Env): Tristate {
    match e
    case None => YES
    case Some(x) => Eval(x, env)
  }

  /** What every calculated assignment satisfies: the constants y, m and n have
      their own values, a bool is never m, and a bool or tristate symbol equals
      one of them exactly when it has that value. */
  ghost predicate Admissible(env: Env) {
    && env.tri(SYM_NO) == NO && env.tri(SYM_MOD) == MOD && env.tri(SYM_YES) == YES
    && (forall s: Sym :: s.kind.Boolean? ==> env.tri(s) != MOD)
    && (forall s: Sym, c: Sym :: (IsTriKind(s) || IsTriConst(s)) && IsTriConst(c) ==>
          (env.cmp(s, c) == 0 <==> env.tri(s) == env.tri(c)))
  }

  /** The comparisons of tristate symbols with constants other than y, m and n. */
  function Compared(e: Expr): set<(Sym, Sym)> {
    match e
    case Symbol(_) => {}
    case Comp(_, l, r) => if l.kind.TristateKind? && IsConst(r) && !IsTriConst(r) then {(l, r)} else {}
    case Not(a) => Compared(a)
    case Bin(_, a, b) => Compared(a) + Compared(b)
  }

  function ComparedOpt(e: Option<Expr>): set<(Sym, Sym)> {
    if e.None? then {} else Compared(e.value)
  }

  /** No symbol equals two of the constants that it is compared with, y, m and n
      being among them. */
  ghost predicate Apart(env: Env, pairs: set<(Sym, Sym)>) {
    forall p, c: Sym :: p in pairs && IsConst(c) && c != p.1 && (IsTriConst(c) || (p.0, c) in pairs) ==>
      !(env.cmp(p.0, p.1) == 0 && env.cmp(p.0, c) == 0)
  }

  /** `a` compares nothing that `b` does not compare, and has the same value in
      every admissible assignment that keeps the constants apart with which `b`
      compares. */
  ghost predicate StandsFor(a: Expr, b: Expr) {
    && Compared(a) <= Compared(b)
    && forall env: Env :: Admissible(env) && Apart(env, Compared(b)) ==> Eval(a, env) == Eval(b, env)
  }

  lemma StandsForTwice(a: Expr, b: Expr, c: Expr)
    requires StandsFor(a, b) && StandsFor(b, c)
    ensures StandsFor(a, c)
  {
    forall env: Env | Admissible(env) && Apart(env, Compared(c))
      ensures Eval(a, env) == Eval(c, env)
    {
      assert Apart(env, Compared(b));
    }
  }
}
