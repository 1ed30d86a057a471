/** An && or || expression seen as the row of its operands. */
module Operands {
  import opened Options
  import opened Tristates
  import opened Exprs
  import opened Equality
  import opened Joining
  import opened Transforming

  /** The operands of `op` at the top level of `e`, left to right. */
  function OperandsOf(op: BinOp, e: Expr): (r: seq<Expr>)
    ensures |r| >= 1
  {
    if IsOp(op, e) then OperandsOf(op, e.fst) + OperandsOf(op, e.snd) else [e]
  }

  lemma {:induction false} OperandsAreSmaller(op: BinOp, e: Expr)
    ensures IsOp(op, e) ==> |OperandsOf(op, e)| >= 2
    ensures forall x :: x in OperandsOf(op, e) ==>
      !IsOp(op, x) && Size(x) <= Size(e) && (IsOp(op, e) ==> Size(x) < Size(e))
  {
    if IsOp(op, e) {
      OperandsAreSmaller(op, e.fst);
      OperandsAreSmaller(op, e.snd);
    }
  }

  /** The value of a row of operands. */
  function Fold(op: BinOp, c: seq<Expr>, env: Env): Tristate {
    if c == [] then (if op.AndOp? then YES else NO) else Apply(op, Eval(c[0], env), Fold(op, c[1..], env))
  }

  function TotalSize(c: seq<Expr>): nat {
    if c == [] then 0 else Size(c[0]) + TotalSize(c[1..])
  }

  /** An operand that the removal of constants makes disappear or shrink. */
  predicate Reducible(e: Expr) {
    e == EXPR_YES || e == EXPR_NO || Size(ElimYn(e)) < Size(e)
  }

  ghost predicate HasReducible(c: seq<Expr>) {
    exists x :: x in c && Reducible(x)
  }

  lemma {:induction false} FoldConcat(op: BinOp, c: seq<Expr>, d: seq<Expr>, env: Env)
    ensures Fold(op, c + d, env) == Apply(op, Fold(op, c, env), Fold(op, d, env))
  {
    if c == [] {
      assert c + d == d;
    } else {
      assert (c + d)[1..] == c[1..] + d;
      FoldConcat(op, c[1..], d, env);
    }
  }

  lemma {:induction false} TotalSizeConcat(c: seq<Expr>, d: seq<Expr>)
    ensures TotalSize(c + d) == TotalSize(c) + TotalSize(d)
  {
    if c == [] {
      assert c + d == d;
    } else {
      assert (c + d)[1..] == c[1..] + d;
      TotalSizeConcat(c[1..], d);
    }
  }

  lemma {:induction false} FoldOfOperands(op: BinOp, e: Expr, env: Env)
    ensures Fold(op, OperandsOf(op, e), env) == Eval(e, env)
  {
    if IsOp(op, e) {
      FoldOfOperands(op, e.fst, env);
      FoldOfOperands(op, e.snd, env);
      FoldConcat(op, OperandsOf(op, e.fst), OperandsOf(op, e.snd), env);
    }
  }

  lemma {:induction false} SizeOfOperands(op: BinOp, e: Expr)
    ensures Size(e) == TotalSize(OperandsOf(op, e)) + |OperandsOf(op, e)| - 1
  {
    if IsOp(op, e) {
      SizeOfOperands(op, e.fst);
      SizeOfOperands(op, e.snd);
      TotalSizeConcat(OperandsOf(op, e.fst), OperandsOf(op, e.snd));
    } else {
      assert OperandsOf(op, e)[1..] == [];
    }
  }

  /** Removing constants shrinks an && or || exactly when it shrinks an operand
      or meets a constant one. */
  lemma ReducibleBin(e: Expr)
    requires e.Bin?
    ensures Size(ElimYn(e)) < Size(e) <==> Reducible(e.fst) || Reducible(e.snd)
  {
    var l, r := ElimYn(e.fst), ElimYn(e.snd);
    assert Size(l) == Size(e.fst) && !Reducible(e.fst) ==> l != EXPR_YES && l != EXPR_NO;
    assert Size(r) == Size(e.snd) && !Reducible(e.snd) ==> r != EXPR_YES && r != EXPR_NO;
  }

  lemma HasReducibleConcat(c: seq<Expr>, d: seq<Expr>)
    ensures HasReducible(c + d) <==> HasReducible(c) || HasReducible(d)
  {
    forall x ensures x in c + d <==> x in c || x in d { }
  }

  /** The same for a whole row of operands. */
  lemma {:induction false} ReducibleOperands(op: BinOp, e: Expr)
    ensures Reducible(e) <==> HasReducible(OperandsOf(op, e))
  {
    if IsOp(op, e) {
      ReducibleBin(e);
      ReducibleOperands(op, e.fst);
      ReducibleOperands(op, e.snd);
      HasReducibleConcat(OperandsOf(op, e.fst), OperandsOf(op, e.snd));
    } else {
      assert OperandsOf(op, e) == [e];
    }
  }

  /** What the operands of a row compare with constants. */
  function AllCompared(c: seq<Expr>): set<(Sym, Sym)> {
    if c == [] then {} else Compared(c[0]) + AllCompared(c[1..])
  }

  lemma {:induction false} ComparedOfOperands(op: BinOp, e: Expr)
    ensures AllCompared(OperandsOf(op, e)) == Compared(e)
  {
    if IsOp(op, e) {
      ComparedOfOperands(op, e.fst);
      ComparedOfOperands(op, e.snd);
      AllComparedConcat(OperandsOf(op, e.fst), OperandsOf(op, e.snd));
    } else {
      assert OperandsOf(op, e)[1..] == [];
    }
  }

  lemma {:induction false} AllComparedConcat(c: seq<Expr>, d: seq<Expr>)
    ensures AllCompared(c + d) == AllCompared(c) + AllCompared(d)
  {
    if c == [] {
      assert c + d == d;
    } else {
      assert (c + d)[1..] == c[1..] + d;
      AllComparedConcat(c[1..], d);
    }
  }

  lemma {:induction false} ComparedInRow(c: seq<Expr>, i: nat)
    requires i < |c|
    ensures Compared(c[i]) <= AllCompared(c)
  {
    if i > 0 { ComparedInRow(c[1..], i - 1); }
  }

  lemma {:induction false} AllComparedUpdate(c: seq<Expr>, i: nat, x: Expr)
    requires i < |c|
    ensures AllCompared(c[i := x]) <= AllCompared(c) + Compared(x)
  {
    var d := c[i := x];
    if i == 0 {
      assert d[1..] == c[1..];
    } else {
      assert d[1..] == c[1..][i - 1 := x];
      AllComparedUpdate(c[1..], i - 1, x);
    }
  }

  ghost predicate AllNormal(c: seq<Expr>) {
    forall i :: 0 <= i < |c| ==> Normal(c[i])
  }

  lemma AllNormalConcat(c: seq<Expr>, d: seq<Expr>)
    ensures AllNormal(c + d) <==> AllNormal(c) && AllNormal(d)
  {
    assert forall i :: 0 <= i < |c| ==> (c + d)[i] == c[i];
    assert forall i :: 0 <= i < |d| ==> (c + d)[|c| + i] == d[i];
  }

  lemma {:induction false} NormalOperands(op: BinOp, e: Expr)
    ensures Normal(e) <==> AllNormal(OperandsOf(op, e))
  {
    if IsOp(op, e) {
      NormalOperands(op, e.fst);
      NormalOperands(op, e.snd);
      AllNormalConcat(OperandsOf(op, e.fst), OperandsOf(op, e.snd));
    } else {
      assert OperandsOf(op, e)[0] == e;
    }
  }

  lemma {:induction false} ElimYnKeepsNormal(e: Expr)
    requires Normal(e)
    ensures Normal(ElimYn(e))
  {
    if e.Bin? {
      ElimYnKeepsNormal(e.fst);
      ElimYnKeepsNormal(e.snd);
    }
  }

  // ---------- Overwriting operands ----------

  lemma {:induction false} FoldExtract(op: BinOp, c: seq<Expr>, i: nat, env: Env)
    requires i < |c| && Admissible(env)
    ensures Fold(op, c, env) == Apply(op, Eval(c[i], env), Fold(op, c[i := Neutral(op)], env))
  {
    hide Eval;
    var d := c[i := Neutral(op)];
    NeutralValue(op, env);
    if i == 0 {
      assert d[1..] == c[1..];
    } else {
      assert d[1..] == c[1..][i - 1 := Neutral(op)];
      FoldExtract(op, c[1..], i - 1, env);
    }
  }

  lemma NeutralValue(op: BinOp, env: Env)
    requires Admissible(env)
    ensures Eval(Neutral(op), env) == if op.AndOp? then YES else NO
  {
  }

  lemma {:induction false} TotalSizeUpdate(c: seq<Expr>, i: nat, x: Expr)
    requires i < |c|
    ensures TotalSize(c[i := x]) == TotalSize(c) - Size(c[i]) + Size(x)
  {
    if i == 0 {
      assert c[i := x][1..] == c[1..];
    } else {
      assert c[i := x][1..] == c[1..][i - 1 := x];
      TotalSizeUpdate(c[1..], i - 1, x);
    }
  }

  /** Replacing one operand by an equivalent one keeps the value of the row. */
  lemma FoldReplace(op: BinOp, c: seq<Expr>, i: nat, x: Expr, env: Env)
    requires i < |c| && Admissible(env) && Eval(x, env) == Eval(c[i], env)
    ensures Fold(op, c[i := x], env) == Fold(op, c, env)
  {
    FoldExtract(op, c, i, env);
    FoldExtract(op, c[i := x], i, env);
    assert c[i := x][i := Neutral(op)] == c[i := Neutral(op)];
  }

  lemma ApplyLaws(op: BinOp, a: Tristate, b: Tristate, r: Tristate)
    ensures Apply(op, Apply(op, a, b), r) == Apply(op, a, Apply(op, b, r))
  {
  }

  /** Putting the neutral operand at `i` and the join at `j` keeps the value. */
  lemma FoldJoin(op: BinOp, c: seq<Expr>, i: nat, j: nat, x: Expr, env: Env)
    requires i < |c| && j < |c| && i != j && Admissible(env)
    requires Eval(x, env) == Apply(op, Eval(c[i], env), Eval(c[j], env))
    ensures Fold(op, c[i := Neutral(op)][j := x], env) == Fold(op, c, env)
  {
    var d := c[i := Neutral(op)];
    var rest := Fold(op, d[j := Neutral(op)], env);
    FoldExtract(op, c, i, env);
    FoldExtract(op, d, j, env);
    ApplyLaws(op, Eval(c[i], env), Eval(c[j], env), rest);
    assert Fold(op, c, env) == Apply(op, Eval(x, env), rest);
    FoldExtract(op, d[j := x], j, env);
    assert d[j := x][j := Neutral(op)] == d[j := Neutral(op)];
  }

  // ---------- Nothing left to join ----------

  /** No two operands at the same level join, at every nested && and || level
      that the simplifier visits. */
  predicate Deduped(e: Expr)
    decreases Size(e)
  {
    e.Bin? ==>
      var c := OperandsOf(e.op, e);
      OperandsAreSmaller(e.op, e);
      && (forall i, j :: 0 <= i < |c| && 0 <= j < |c| && i != j ==> Join(e.op, c[i], c[j]).None?)
      && (forall x :: x in c ==> Deduped(x))
  }
}
