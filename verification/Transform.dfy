/** Normalisation of logical operators and comparisons, and the two rewrites
    that turn expressions into two-valued ones. */
module Transforming {
  import opened Options
  import opened Tristates
  import opened Exprs

  /** && and || nodes; De Morgan keeps their number. */
  function OpCount(e: Expr): nat {
    match e
    case Not(a) => OpCount(a)
    case Bin(_, a, b) => 1 + OpCount(a) + OpCount(b)
    case _ => 0
  }

  function LeadingNots(e: Expr): nat {
    if e.Not? then 1 + LeadingNots(e.arg) else 0
  }

  function FlipRel(rel: Rel): Rel {
    match rel
    case Eq => Ne
    case Ne => Eq
    case Le => Gt
    case Ge => Lt
    case Lt => Ge
    case Gt => Le
  }

  function Dual(op: BinOp): BinOp {
    if op.OrOp? then AndOp else OrOp
  }

  /** A comparison of a bool symbol with y, m or n needs no comparison. */
  function TransformComp(rel: Rel, l: Sym, r: Sym): Expr {
    if !l.kind.Boolean? then Comp(rel, l, r)
    else if rel.Eq? && r == SYM_NO then Not(Symbol(l))
    else if rel.Eq? && r == SYM_MOD then EXPR_NO
    else if rel.Eq? && r == SYM_YES then Symbol(l)
    else if rel.Ne? && r == SYM_NO then Symbol(l)
    else if rel.Ne? && r == SYM_MOD then EXPR_YES
    else if rel.Ne? && r == SYM_YES then Not(Symbol(l))
    else Comp(rel, l, r)
  }

  /** Pushes ! down to symbols. The results of De Morgan and of a removed double
      negation are transformed again; the number of && and || nodes and the
      leading negations pay for it. */
  function Transform(e: Expr): (r: Expr)
    ensures Normal(r) && OpCount(r) == OpCount(e)
    decreases OpCount(e), LeadingNots(e)
  {
    match e
    case Symbol(_) => e
    case Comp(rel, l, r) => TransformComp(rel, l, r)
    case Bin(op, a, b) => Bin(op, Transform(a), Transform(b))
    case Not(a) =>
      match Transform(a)
      case Not(x) => Transform(x)
      case Comp(rel, l, r) => Comp(FlipRel(rel), l, r)
      case Bin(op, x, y) =>
        assert OpCount(Not(x)) == OpCount(x) && OpCount(Not(y)) == OpCount(y);
        Transform(Bin(Dual(op), Not(x), Not(y)))
      case Symbol(s) =>
        if s == SYM_YES then EXPR_NO
        else if s == SYM_MOD then Symbol(SYM_MOD)
        else if s == SYM_NO then EXPR_YES
        else Not(Symbol(s))
  }

  /** `!` only over symbols other than y, m and n; no comparison of a bool
      symbol for (in)equality with y, m or n. */
  predicate Normal(e: Expr) {
    match e
    case Symbol(_) => true
    case Comp(rel, l, r) => !(l.kind.Boolean? && (rel.Eq? || rel.Ne?) && IsTriConst(r))
    case Not(a) => a.Symbol? && !IsTriConst(a.sym)
    case Bin(_, a, b) => Normal(a) && Normal(b)
  }

  lemma {:induction false} TransformKeepsValue(e: Expr, env: Env)
    requires Admissible(env)
    ensures Eval(Transform(e), env) == Eval(e, env)
    decreases OpCount(e), LeadingNots(e)
  {
    match e
    case Symbol(_) =>
    case Comp(rel, l, r) =>
    case Bin(op, a, b) =>
      TransformKeepsValue(a, env);
      TransformKeepsValue(b, env);
    case Not(a) =>
      TransformKeepsValue(a, env);
      match Transform(a)
      case Not(x) => TransformKeepsValue(x, env);
      case Bin(op, x, y) =>
        assert OpCount(Not(x)) == OpCount(x) && OpCount(Not(y)) == OpCount(y);
        TransformKeepsValue(Bin(Dual(op), Not(x), Not(y)), env);
      case _ =>
  }

  /** Normalising compares with nothing new. */
  lemma {:induction false} TransformCompared(e: Expr)
    ensures Compared(Transform(e)) <= Compared(e)
    decreases OpCount(e), LeadingNots(e)
  {
    match e
    case Symbol(_) =>
    case Comp(rel, l, r) =>
    case Bin(op, a, b) =>
      TransformCompared(a);
      TransformCompared(b);
    case Not(a) =>
      TransformCompared(a);
      match Transform(a)
      case Not(x) => TransformCompared(x);
      case Bin(op, x, y) =>
        assert OpCount(Not(x)) == OpCount(x) && OpCount(Not(y)) == OpCount(y);
        TransformCompared(Bin(Dual(op), Not(x), Not(y)));
      case _ =>
  }

  /** Normal expressions are exactly the fixed points. */
  lemma {:induction false} TransformFixesNormal(e: Expr)
    ensures Transform(e) == e <==> Normal(e)
  {
    match e
    case Bin(_, a, b) =>
      TransformFixesNormal(a);
      TransformFixesNormal(b);
    case _ =>
  }

  lemma TransformIdempotent(e: Expr)
    ensures Transform(Transform(e)) == Transform(e)
  {
    TransformFixesNormal(Transform(e));
  }

  // ---------- In one pass ----------

  /** The negation normal form by the number of `!` above, `odd` if that is odd: they
      turn && into || and arrive at the symbols and comparisons, in the same order. */
  function Pushed(e: Expr, odd: bool): Expr {
    match e
    case Not(a) => Pushed(a, !odd)
    case Bin(op, a, b) => Bin(if op.AndOp? != odd then AndOp else OrOp, Pushed(a, odd), Pushed(b, odd))
    case Symbol(s) =>
      if !odd || s == SYM_MOD then e
      else if IsTriConst(s) then Symbol(if s == SYM_YES then SYM_NO else SYM_YES)
      else Not(e)
    case Comp(rel, l, r) =>
      if l.kind.Boolean? && (rel.Eq? || rel.Ne?) && IsTriConst(r) then
        // Equal to y, or not to n: the symbol itself
        if r == SYM_MOD then (if rel.Eq? != odd then EXPR_NO else EXPR_YES)
        else if ((r == SYM_YES) == rel.Eq?) != odd then Symbol(l)
        else Not(Symbol(l))
      else Comp(if odd then Opposite(rel) else rel, l, r)
  }

  /** The relation that holds exactly where `rel` does not. */
  function Opposite(rel: Rel): (r: Rel)
    ensures forall sign: int :: Holds(r, sign) <==> !Holds(rel, sign)
  {
    FlipRel(rel)
  }

  lemma {:induction false} PushedTwice(e: Expr, m: bool, n: bool)
    ensures Pushed(Pushed(e, m), n) == Pushed(e, m != n)
  {
    match e
    case Not(a) => PushedTwice(a, !m, n);
    case Bin(_, a, b) =>
      PushedTwice(a, m, n);
      PushedTwice(b, m, n);
    case _ =>
  }

  /** Normalising again and again ends with what one pass makes. */
  lemma {:induction false} TransformIsOnePass(e: Expr)
    ensures Transform(e) == Pushed(e, false)
    decreases OpCount(e), LeadingNots(e)
  {
    match e
    case Symbol(_) =>
    case Comp(_, _, _) =>
    case Bin(_, a, b) =>
      TransformIsOnePass(a);
      TransformIsOnePass(b);
    case Not(a) =>
      TransformIsOnePass(a);
      PushedTwice(a, false, true);
      match Transform(a)
      case Not(x) => TransformIsOnePass(x);
      case Bin(op, x, y) =>
        assert OpCount(Not(x)) == OpCount(x) && OpCount(Not(y)) == OpCount(y);
        TransformIsOnePass(Bin(Dual(op), Not(x), Not(y)));
      case _ =>
  }

  // ---------- FOO!=n => FOO ----------

  function TransBool(e: Expr): Expr {
    match e
    case Bin(op, a, b) => Bin(op, TransBool(a), TransBool(b))
    case Not(a) => Not(TransBool(a))
    case Comp(rel, l, r) =>
      if rel.Ne? && l.kind.TristateKind? && r == SYM_NO then Symbol(l) else e
    case Symbol(_) => e
  }

  lemma {:induction false} TransBoolKeepsNormal(e: Expr)
    requires Normal(e)
    ensures Normal(TransBool(e))
  {
    if e.Bin? {
      TransBoolKeepsNormal(e.fst);
      TransBoolKeepsNormal(e.snd);
    }
  }

  lemma {:induction false} TransBoolCompared(e: Expr)
    ensures Compared(TransBool(e)) <= Compared(e)
  {
    match e
    case Bin(_, a, b) =>
      TransBoolCompared(a);
      TransBoolCompared(b);
    case Not(a) => TransBoolCompared(a);
    case _ =>
  }

  /** On normal expressions the result is n exactly when the argument is. */
  lemma {:induction false} TransBoolKeepsNonzero(e: Expr, env: Env)
    requires Admissible(env) && Normal(e)
    ensures Eval(TransBool(e), env) <= Eval(e, env)
    ensures Eval(TransBool(e), env) == NO <==> Eval(e, env) == NO
  {
    match e
    case Bin(_, a, b) =>
      TransBoolKeepsNonzero(a, env);
      TransBoolKeepsNonzero(b, env);
    case _ =>
  }

  /** No tristate symbol is tested against n. */
  predicate NoTestAgainstNo(e: Expr) {
    match e
    case Bin(_, a, b) => NoTestAgainstNo(a) && NoTestAgainstNo(b)
    case Not(a) => NoTestAgainstNo(a)
    case Comp(rel, l, r) => !(rel == Ne && l.kind == TristateKind && r == SYM_NO)
    case Symbol(_) => true
  }

  /** Every such test is rewritten, and expressions without one are left alone. */
  lemma {:induction false} TransBoolRemovesTests(e: Expr)
    ensures NoTestAgainstNo(TransBool(e)) && (NoTestAgainstNo(e) <==> TransBool(e) == e)
  {
    match e
    case Bin(_, a, b) =>
      TransBoolRemovesTests(a);
      TransBoolRemovesTests(b);
    case Not(a) => TransBoolRemovesTests(a);
    case _ =>
  }

  // ---------- Inserting explicit comparisons ----------

  /** `e` compared with `sym`, which is y or n: `rel` is = or !=. */
  function TransCompare(e: Expr, rel: Rel, sym: Sym): Expr
    requires rel.Eq? || rel.Ne?
    requires sym == SYM_YES || sym == SYM_NO
  {
    match e
    case Bin(op, a, b) =>
      var c := Bin(if sym == SYM_YES then op else Dual(op), TransCompare(a, Eq, sym), TransCompare(b, Eq, sym));
      if rel.Ne? then Not(c) else c
    case Not(a) => TransCompare(a, FlipRel(rel), sym)
    case Comp(_, _, _) => if rel.Eq? == (sym == SYM_YES) then e else Not(e)
    case Symbol(s) => Comp(rel, s, sym)
  }

  /** A missing expression stands for y; the result still is the bare constant. */
  function TransCompareOpt(e: Option<Expr>, rel: Rel, sym: Sym): Expr
    requires rel.Eq? || rel.Ne?
    requires sym == SYM_YES || sym == SYM_NO
  {
    match e
    case None => if rel.Ne? then Not(Symbol(sym)) else Symbol(sym)
    case Some(x) => TransCompare(x, rel, sym)
  }

  /** Bare symbols are bool, tristate, or one of y, m, n. */
  predicate TriSymbols(e: Expr) {
    match e
    case Symbol(s) => IsTriKind(s) || IsTriConst(s)
    case Comp(_, _, _) => true
    case Not(a) => TriSymbols(a)
    case Bin(_, a, b) => TriSymbols(a) && TriSymbols(b)
  }

  /** The assignment in which every bare m counts as `t`; comparisons keep
      their outcome. */
  ghost function ReadMod(env: Env, t: Tristate): (r: Env)
    ensures forall s: Sym :: r.tri(s) == if env.tri(s) == MOD then t else env.tri(s)
  {
    Env((s: Sym) => var v: Tristate := if env.tri(s) == MOD then t else env.tri(s); v, env.cmp)
  }

  /** The exact meaning of the inserted comparisons: `e` is read with every m
      counting as y (for a test against n) or as n (for a test against y). */
  lemma {:induction false} TransCompareMeaning(e: Expr, rel: Rel, sym: Sym, env: Env)
    requires Admissible(env) && TriSymbols(e)
    requires rel.Eq? || rel.Ne?
    requires sym == SYM_YES || sym == SYM_NO
    ensures
      var v := Eval(e, ReadMod(env, if sym == SYM_NO then YES else NO));
      Eval(TransCompare(e, rel, sym), env) ==
      if rel.Eq? == (sym == SYM_YES) then v else TriNot(v)
  {
    match e
    case Bin(_, a, b) =>
      TransCompareMeaning(a, Eq, sym, env);
      TransCompareMeaning(b, Eq, sym, env);
    case Not(a) => TransCompareMeaning(a, FlipRel(rel), sym, env);
    case _ =>
  }

  lemma {:induction false} TransCompareCompared(e: Expr, rel: Rel, sym: Sym)
    requires rel.Eq? || rel.Ne?
    requires sym == SYM_YES || sym == SYM_NO
    ensures Compared(TransCompare(e, rel, sym)) <= Compared(e)
  {
    match e
    case Bin(_, a, b) =>
      TransCompareCompared(a, Eq, sym);
      TransCompareCompared(b, Eq, sym);
    case Not(a) => TransCompareCompared(a, FlipRel(rel), sym);
    case _ =>
  }

  /** Symbols whose bare value `e` depends on. */
  predicate BareSymbol(e: Expr, s: Sym) {
    match e
    case Symbol(t) => t == s
    case Comp(_, _, _) => false
    case Not(a) => BareSymbol(a, s)
    case Bin(_, a, b) => BareSymbol(a, s) || BareSymbol(b, s)
  }

  /** No bare symbol of `e` is m. */
  ghost predicate NoMod(e: Expr, env: Env) {
    forall s: Sym :: BareSymbol(e, s) ==> env.tri(s) != MOD
  }

  lemma {:induction false} ReadModWithoutMod(e: Expr, env: Env, t: Tristate)
    requires NoMod(e, env)
    ensures Eval(e, ReadMod(env, t)) == Eval(e, env)
  {
    match e
    case Symbol(s) => assert BareSymbol(e, s);
    case Comp(_, _, _) =>
    case Not(a) =>
      assert forall s: Sym :: BareSymbol(a, s) ==> BareSymbol(e, s);
      ReadModWithoutMod(a, env, t);
    case Bin(_, a, b) =>
      assert forall s: Sym :: BareSymbol(a, s) ==> BareSymbol(e, s);
      assert forall s: Sym :: BareSymbol(b, s) ==> BareSymbol(e, s);
      ReadModWithoutMod(a, env, t);
      ReadModWithoutMod(b, env, t);
  }
}
