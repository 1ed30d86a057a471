/** Removal of constant operands, cancelling of common operands, and the
    equality test built from them. */
module Equality {
  import opened Tristates
  import opened Exprs

  /** Removes y and n operands, bottom up, below && and || only. */
  function ElimYn(e: Expr): (r: Expr)
    ensures Size(r) <= Size(e)
  {
    match e
    case Bin(op, a, b) =>
      var l := ElimYn(a);
      var r := ElimYn(b);
      if l == Absorbing(op) then Absorbing(op)
      else if l == Neutral(op) then r
      else if r == Absorbing(op) then Absorbing(op)
      else if r == Neutral(op) then l
      else Bin(op, l, r)
    case _ => e
  }

  lemma {:induction false} ElimYnKeepsValue(e: Expr, env: Env)
    requires Admissible(env)
    ensures Eval(ElimYn(e), env) == Eval(e, env)
  {
    match e
    case Bin(_, a, b) =>
      ElimYnKeepsValue(a, env);
      ElimYnKeepsValue(b, env);
    case _ =>
  }

  lemma {:induction false} ElimYnStandsFor(e: Expr)
    ensures StandsFor(ElimYn(e), e)
  {
    ElimYnCompared(e);
    forall env: Env | Admissible(env)
      ensures Eval(ElimYn(e), env) == Eval(e, env)
    {
      ElimYnKeepsValue(e, env);
    }
  }

  lemma {:induction false} ElimYnCompared(e: Expr)
    ensures Compared(ElimYn(e)) <= Compared(e)
  {
    if e.Bin? {
      ElimYnCompared(e.fst);
      ElimYnCompared(e.snd);
    }
  }

  /** Walks the operands of `op` in both expressions and replaces equal ones,
      other than y and n, by the neutral operand on both sides. */
  function ElimEq(op: BinOp, e1: Expr, e2: Expr): (r: (Expr, Expr))
    ensures Size(r.0) <= Size(e1) && Size(r.1) <= Size(e2)
    decreases Size(e1) + Size(e2), if IsOp(op, e1) || IsOp(op, e2) then 0 else 3
  {
    if IsOp(op, e1) then
      var (a, f) := ElimEq(op, e1.fst, e2);
      var (b, g) := ElimEq(op, e1.snd, f);
      (Bin(op, a, b), g)
    else if IsOp(op, e2) then
      var (f, a) := ElimEq(op, e1, e2.fst);
      var (g, b) := ElimEq(op, f, e2.snd);
      (g, Bin(op, a, b))
    else if e1.Symbol? && e1 == e2 && (e1.sym == SYM_YES || e1.sym == SYM_NO) then
      (e1, e2)
    else if !ExprEq(e1, e2) then
      (e1, e2)
    else
      (Neutral(op), Neutral(op))
  }

  /** Cancels operands common to both expressions. */
  function EliminateEq(e1: Expr, e2: Expr): (r: (Expr, Expr))
    ensures Size(r.0) <= Size(e1) && Size(r.1) <= Size(e2)
    decreases Size(e1) + Size(e2), 1
  {
    var (a, b) := if e1.Bin? then ElimEq(e1.op, e1, e2) else (e1, e2);
    var (c, d) :=
      if b.Bin? && !IsOp(b.op, a) then ElimEq(b.op, a, b) else (a, b);
    (ElimYn(c), ElimYn(d))
  }

  /** Equality after minor simplification, insensitive to operand order. */
  function ExprEq(e1: Expr, e2: Expr): bool
    decreases Size(e1) + Size(e2), 2
  {
    match (e1, e2)
    case (Comp(_, _, _), Comp(_, _, _)) => e1 == e2
    case (Symbol(_), Symbol(_)) => e1 == e2
    case (Not(a), Not(b)) => ExprEq(a, b)
    case (Bin(op1, _, _), Bin(op2, _, _)) =>
      op1 == op2 &&
      var (a, b) := EliminateEq(e1, e2);
      a.Symbol? && a == b
    case _ => false
  }

  // ---------- Soundness ----------

  /** `x` is `x'` with the operand of value `c` put back, and likewise for `y`. */
  ghost predicate Restores(op: BinOp, x: Tristate, y: Tristate, x': Tristate, y': Tristate, c: Tristate) {
    x == Apply(op, x', c) && y == Apply(op, y', c)
  }

  lemma RestoreTwice(op: BinOp, x1: Tristate, x2: Tristate, y: Tristate,
                     x1': Tristate, x2': Tristate, y': Tristate, y'': Tristate, c1: Tristate, c2: Tristate)
    requires Restores(op, x1, y, x1', y', c1)
    requires Restores(op, x2, y', x2', y'', c2)
    ensures Restores(op, Apply(op, x1, x2), y, Apply(op, x1', x2'), y'', Apply(op, c1, c2))
  {
  }

  /** Cancelling only removes a common operand: there is one value that gives
      both old values back. */
  lemma {:induction false} ElimEqCancelsCommonFactor(op: BinOp, e1: Expr, e2: Expr, env: Env) returns (c: Tristate)
    requires Admissible(env)
    ensures
      var (a, b) := ElimEq(op, e1, e2);
      Restores(op, Eval(e1, env), Eval(e2, env), Eval(a, env), Eval(b, env), c)
    decreases Size(e1) + Size(e2), if IsOp(op, e1) || IsOp(op, e2) then 0 else 3
  {
    if IsOp(op, e1) {
      var (a, f) := ElimEq(op, e1.fst, e2);
      var c1 := ElimEqCancelsCommonFactor(op, e1.fst, e2, env);
      var c2 := ElimEqCancelsCommonFactor(op, e1.snd, f, env);
      c := Apply(op, c1, c2);
      var (b, g) := ElimEq(op, e1.snd, f);
      RestoreTwice(op, Eval(e1.fst, env), Eval(e1.snd, env), Eval(e2, env),
                   Eval(a, env), Eval(b, env), Eval(f, env), Eval(g, env), c1, c2);
      assert ElimEq(op, e1, e2) == (Bin(op, a, b), g);
    } else if IsOp(op, e2) {
      var (f, a) := ElimEq(op, e1, e2.fst);
      var c1 := ElimEqCancelsCommonFactor(op, e1, e2.fst, env);
      var c2 := ElimEqCancelsCommonFactor(op, f, e2.snd, env);
      c := Apply(op, c1, c2);
      var (g, b) := ElimEq(op, f, e2.snd);
      RestoreTwice(op, Eval(e2.fst, env), Eval(e2.snd, env), Eval(e1, env),
                   Eval(a, env), Eval(b, env), Eval(f, env), Eval(g, env), c1, c2);
      assert ElimEq(op, e1, e2) == (g, Bin(op, a, b));
    } else if ElimEq(op, e1, e2) == (e1, e2) {
      c := Eval(Neutral(op), env);
    } else {
      ExprEqSound(e1, e2, env);
      c := Eval(e1, env);
    }
  }

  lemma OrderRestored(op: BinOp, x: Tristate, y: Tristate, x': Tristate, y': Tristate, c: Tristate)
    requires Restores(op, x, y, x', y', c)
    ensures (x' <= y' ==> x <= y) && (y' <= x' ==> y <= x)
  {
  }

  /** The reduced pair decides the order and the equality of the old pair: in
      every admissible assignment, if the results are ordered (either way) or
      equal, so were the arguments. */
  lemma {:induction false} EliminateEqReflectsOrder(e1: Expr, e2: Expr, env: Env)
    requires Admissible(env)
    ensures
      var (a, b) := EliminateEq(e1, e2);
      && (Eval(a, env) <= Eval(b, env) ==> Eval(e1, env) <= Eval(e2, env))
      && (Eval(b, env) <= Eval(a, env) ==> Eval(e2, env) <= Eval(e1, env))
    decreases Size(e1) + Size(e2), 1
  {
    var (a, b) := if e1.Bin? then ElimEq(e1.op, e1, e2) else (e1, e2);
    if e1.Bin? {
      var f := ElimEqCancelsCommonFactor(e1.op, e1, e2, env);
      OrderRestored(e1.op, Eval(e1, env), Eval(e2, env), Eval(a, env), Eval(b, env), f);
    }
    var (c, d) :=
      if b.Bin? && !IsOp(b.op, a) then ElimEq(b.op, a, b) else (a, b);
    if b.Bin? && !IsOp(b.op, a) {
      var f := ElimEqCancelsCommonFactor(b.op, a, b, env);
      OrderRestored(b.op, Eval(a, env), Eval(b, env), Eval(c, env), Eval(d, env), f);
    }
    ElimYnKeepsValue(c, env);
    ElimYnKeepsValue(d, env);
  }

  /** Whenever the equality test succeeds the two expressions are equal. */
  lemma {:induction false} ExprEqSound(e1: Expr, e2: Expr, env: Env)
    requires Admissible(env)
    requires ExprEq(e1, e2)
    ensures Eval(e1, env) == Eval(e2, env)
    decreases Size(e1) + Size(e2), 2
  {
    match (e1, e2)
    case (Not(a), Not(b)) => ExprEqSound(a, b, env);
    case (Bin(_, _, _), Bin(_, _, _)) => EliminateEqReflectsOrder(e1, e2, env);
    case _ =>
  }

  // ---------- Completeness of cancelling ----------

  /** `e'` is `e` with some operands of `op` replaced by the neutral operand. */
  predicate Blanked(op: BinOp, e: Expr, e': Expr) {
    if IsOp(op, e) then
      IsOp(op, e') && Blanked(op, e.fst, e'.fst) && Blanked(op, e.snd, e'.snd)
    else
      e' == e || e' == Neutral(op)
  }

  /** No operand of `a` passes the equality test against an operand of `b`,
      except the constants y and n. */
  predicate NoCommonOperand(op: BinOp, a: Expr, b: Expr)
    decreases Size(a) + Size(b)
  {
    if IsOp(op, a) then
      NoCommonOperand(op, a.fst, b) && NoCommonOperand(op, a.snd, b)
    else if IsOp(op, b) then
      NoCommonOperand(op, a, b.fst) && NoCommonOperand(op, a, b.snd)
    else
      ExprEq(a, b) ==> a == b && (a == EXPR_YES || a == EXPR_NO)
  }

  lemma {:induction false} BlankedRefl(op: BinOp, e: Expr)
    ensures Blanked(op, e, e)
  {
    if IsOp(op, e) {
      BlankedRefl(op, e.fst);
      BlankedRefl(op, e.snd);
    }
  }

  lemma {:induction false} BlankedTrans(op: BinOp, e: Expr, f: Expr, g: Expr)
    requires Blanked(op, e, f) && Blanked(op, f, g)
    ensures Blanked(op, e, g)
  {
    if IsOp(op, e) {
      BlankedTrans(op, e.fst, f.fst, g.fst);
      BlankedTrans(op, e.snd, f.snd, g.snd);
    }
  }

  lemma {:induction false} NoCommonAfterBlanking(op: BinOp, a: Expr, b: Expr, a': Expr, b': Expr)
    requires NoCommonOperand(op, a, b) && Blanked(op, a, a') && Blanked(op, b, b')
    ensures NoCommonOperand(op, a', b')
    decreases Size(a) + Size(b)
  {
    if IsOp(op, a) {
      NoCommonAfterBlanking(op, a.fst, b, a'.fst, b');
      NoCommonAfterBlanking(op, a.snd, b, a'.snd, b');
    } else if IsOp(op, b) {
      NoCommonAfterBlanking(op, a, b.fst, a', b'.fst);
      NoCommonAfterBlanking(op, a, b.snd, a', b'.snd);
    }
  }

  /** Cancelling is complete: afterwards the two expressions share no operand
      at this level, and every operand is either untouched or neutral. */
  lemma {:induction false} ElimEqComplete(op: BinOp, e1: Expr, e2: Expr)
    ensures
      var (a, b) := ElimEq(op, e1, e2);
      Blanked(op, e1, a) && Blanked(op, e2, b) && NoCommonOperand(op, a, b)
    decreases Size(e1) + Size(e2)
  {
    hide ExprEq, EliminateEq, Blanked, NoCommonOperand;
    if IsOp(op, e1) {
      var (a, f) := ElimEq(op, e1.fst, e2);
      var (b, g) := ElimEq(op, e1.snd, f);
      ElimEqComplete(op, e1.fst, e2);
      ElimEqComplete(op, e1.snd, f);
      BlankedTrans(op, e2, f, g);
      BlankedRefl(op, a);
      NoCommonAfterBlanking(op, a, f, a, g);
      FirstCombined(op, e1, e2, a, b, g);
    } else if IsOp(op, e2) {
      var (f, a) := ElimEq(op, e1, e2.fst);
      var (g, b) := ElimEq(op, f, e2.snd);
      ElimEqComplete(op, e1, e2.fst);
      ElimEqComplete(op, f, e2.snd);
      BlankedTrans(op, e1, f, g);
      BlankedRefl(op, a);
      NoCommonAfterBlanking(op, f, a, g, a);
      SecondCombined(op, e1, e2, g, a, b);
    } else {
      PairComplete(op, e1, e2);
    }
  }

  lemma FirstCombined(op: BinOp, e1: Expr, e2: Expr, a: Expr, b: Expr, g: Expr)
    requires IsOp(op, e1) && Blanked(op, e1.fst, a) && Blanked(op, e1.snd, b) && Blanked(op, e2, g)
    requires NoCommonOperand(op, a, g) && NoCommonOperand(op, b, g)
    ensures Blanked(op, e1, Bin(op, a, b)) && NoCommonOperand(op, Bin(op, a, b), g)
  {
    hide ExprEq;
  }

  lemma SecondCombined(op: BinOp, e1: Expr, e2: Expr, g: Expr, a: Expr, b: Expr)
    requires !IsOp(op, e1) && IsOp(op, e2) && Blanked(op, e1, g) && Blanked(op, e2.fst, a) && Blanked(op, e2.snd, b)
    requires NoCommonOperand(op, g, a) && NoCommonOperand(op, g, b)
    ensures Blanked(op, e2, Bin(op, a, b)) && NoCommonOperand(op, g, Bin(op, a, b))
  {
    hide ExprEq;
  }

  lemma PairComplete(op: BinOp, e1: Expr, e2: Expr)
    requires !IsOp(op, e1) && !IsOp(op, e2)
    ensures
      var (a, b) := ElimEq(op, e1, e2);
      Blanked(op, e1, a) && Blanked(op, e2, b) && NoCommonOperand(op, a, b)
  {
    hide ExprEq, EliminateEq;
  }
}
