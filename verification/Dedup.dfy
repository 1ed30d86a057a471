/** Elimination of duplicate operands as a function of an expression: passes over
    the rows of operands, repeated until one finds nothing. */
module Dedup {
  import opened Options
  import opened Tristates
  import opened Exprs
  import opened Equality
  import opened Joining
  import opened Transforming
  import opened Operands

  /** The expression shaped like `e` with the operands `c` of `op`. */
  function Rebuilt(op: BinOp, e: Expr, c: seq<Expr>): Expr
    requires |c| == |OperandsOf(op, e)|
  {
    if IsOp(op, e) then
      var n := |OperandsOf(op, e.fst)|;
      Bin(op, Rebuilt(op, e.fst, c[..n]), Rebuilt(op, e.snd, c[n..]))
    else c[0]
  }

  lemma {:induction false} RebuiltSize(op: BinOp, e: Expr, c: seq<Expr>)
    requires |c| == |OperandsOf(op, e)|
    ensures Size(Rebuilt(op, e, c)) == TotalSize(c) + |c| - 1
    ensures IsOp(op, e) ==> IsOp(op, Rebuilt(op, e, c))
  {
    if IsOp(op, e) {
      var n := |OperandsOf(op, e.fst)|;
      RebuiltSize(op, e.fst, c[..n]);
      RebuiltSize(op, e.snd, c[n..]);
      TotalSizeConcat(c[..n], c[n..]);
      assert c[..n] + c[n..] == c;
    } else {
      assert c[1..] == [];
    }
  }

  lemma {:induction false} SizeInRow(c: seq<Expr>, i: nat)
    requires i < |c|
    ensures Size(c[i]) <= TotalSize(c)
  {
    if i > 0 { SizeInRow(c[1..], i - 1); }
  }

  // ---------- The passes ----------

  /** One pass over the operands of an && or ||, each against each; with the
      number of joins. */
  function PassOver(e: Expr): (r: (Expr, nat))
    requires e.Bin?
    ensures IsOp(e.op, r.0) && Size(r.0) <= Size(e)
    decreases Size(e), 0, 0
  {
    var c := OperandsOf(e.op, e);
    OperandsAreSmaller(e.op, e);
    SizeOfOperands(e.op, e);
    var (d, n) := TryAll(e.op, c, 0, |c|, 0, 0, |c|);
    RebuiltSize(e.op, e, d);
    (Rebuilt(e.op, e, d), n)
  }

  /** In the row `c`, the operands from `i` to `i1` one after the other against
      those from `j0` to `j1`, the first of them from `j` on. */
  function TryAll(op: BinOp, c: seq<Expr>, i: nat, i1: nat, j0: nat, j: nat, j1: nat): (r: (seq<Expr>, nat))
    requires i <= i1 <= |c| && j0 <= j <= j1 <= |c|
    ensures |r.0| == |c| && TotalSize(r.0) <= TotalSize(c)
    decreases TotalSize(c), 1 + i1 - i, j1 - j
  {
    if i == i1 then (c, 0)
    else if j == j1 then TryAll(op, c, i + 1, i1, j0, j0, j1)
    else
      var (d, n) := TryAt(op, c, i, j);
      var (f, m) := TryAll(op, d, i, i1, j0, j + 1, j1);
      (f, n + m)
  }

  /** One operand against another: first the duplicates inside the one, then both
      are joined if they can be. */
  function TryAt(op: BinOp, c: seq<Expr>, i: nat, j: nat): (r: (seq<Expr>, nat))
    requires i < |c| && j < |c|
    ensures |r.0| == |c| && TotalSize(r.0) <= TotalSize(c)
    decreases TotalSize(c), 1, 0
  {
    if i == j then (c, 0)
    else
      SizeInRow(c, i);
      var (e, n) := if c[i].Bin? then PassOver(c[i]) else (c[i], 0);
      TotalSizeUpdate(c, i, e);
      var (d, m) := JoinAt(op, c[i := e], i, j);
      (d, n + m)
  }

  /** The join at `j` and the neutral operand at `i`. */
  function JoinAt(op: BinOp, c: seq<Expr>, i: nat, j: nat): (r: (seq<Expr>, nat))
    requires i < |c| && j < |c| && i != j
    ensures |r.0| == |c| && TotalSize(r.0) <= TotalSize(c)
  {
    var t := Join(op, c[i], c[j]);
    if t.None? then (c, 0)
    else
      JoinSize(op, c[i], c[j]);
      TotalSizeUpdate(c, i, Neutral(op));
      TotalSizeUpdate(c[i := Neutral(op)], j, t.value);
      (c[i := Neutral(op)][j := t.value], 1)
  }

  lemma JoinSize(op: BinOp, e1: Expr, e2: Expr)
    requires Join(op, e1, e2).Some?
    ensures Size(Join(op, e1, e2).value) <= Size(e1)
  {
  }

  // ---------- Passes in parts ----------

  /** Some operands first, then the others. */
  lemma {:induction false} TryAllRows(op: BinOp, c: seq<Expr>, i: nat, m: nat, i1: nat, j0: nat, j: nat, j1: nat)
    requires i <= m <= i1 <= |c| && j0 <= j <= j1 <= |c| && (i < m || j == j0)
    ensures
      var (d, n) := TryAll(op, c, i, m, j0, j, j1);
      var (f, k) := TryAll(op, d, m, i1, j0, j0, j1);
      TryAll(op, c, i, i1, j0, j, j1) == (f, n + k)
    decreases TotalSize(c), 1 + i1 - i, j1 - j
  {
    hide TryAt;
    if i < m {
      if j == j1 {
        TryAllRows(op, c, i + 1, m, i1, j0, j0, j1);
      } else {
        TryAllRows(op, TryAt(op, c, i, j).0, i, m, i1, j0, j + 1, j1);
      }
    }
  }

  /** One operand against some, then against the others. */
  lemma {:induction false} TryAllColumns(op: BinOp, c: seq<Expr>, i: nat, j0: nat, j: nat, m: nat, j1: nat)
    requires i < |c| && j0 <= j <= m <= j1 <= |c|
    ensures
      var (d, n) := TryAll(op, c, i, i + 1, j0, j, m);
      var (f, k) := TryAll(op, d, i, i + 1, m, m, j1);
      TryAll(op, c, i, i + 1, j0, j, j1) == (f, n + k)
    decreases TotalSize(c), j1 - j
  {
    hide TryAt;
    if j < m {
      TryAllColumns(op, TryAt(op, c, i, j).0, i, j0, j + 1, m, j1);
    } else {
      TryAllFrom(op, c, i, j0, m, m, j1);
    }
  }

  lemma {:induction false} TryAllFrom(op: BinOp, c: seq<Expr>, i: nat, j0: nat, j0': nat, j: nat, j1: nat)
    requires i < |c| && j0 <= j <= j1 <= |c| && j0' <= j
    ensures TryAll(op, c, i, i + 1, j0, j, j1) == TryAll(op, c, i, i + 1, j0', j, j1)
    decreases TotalSize(c), j1 - j
  {
    hide TryAt;
    if j < j1 { TryAllFrom(op, TryAt(op, c, i, j).0, i, j0, j0', j + 1, j1); }
  }

  lemma TryAllOne(op: BinOp, c: seq<Expr>, i: nat, j: nat)
    requires i < |c| && j < |c|
    ensures TryAll(op, c, i, i + 1, j, j, j + 1) == TryAt(op, c, i, j)
  {
    hide TryAt;
    var d := TryAt(op, c, i, j).0;
    assert TryAll(op, d, i + 1, i + 1, j, j, j + 1) == (d, 0);
  }

  // ---------- What a pass keeps ----------

  /** `d` stands for `c` and is not larger; if something was found, or `c` could
      be reduced, `d` can be. */
  ghost predicate Simplified(op: BinOp, c: seq<Expr>, d: seq<Expr>, found: bool) {
    && |c| == |d| && SameFold(op, c, d)
    && TotalSize(d) <= TotalSize(c)
    && (found || HasReducible(c) ==> HasReducible(d))
    && (AllNormal(c) ==> AllNormal(d))
  }

  /** The row `d` compares nothing new and has the same value as `c` in every
      admissible assignment that keeps the constants of `c` apart. */
  ghost predicate SameFold(op: BinOp, c: seq<Expr>, d: seq<Expr>) {
    && AllCompared(d) <= AllCompared(c)
    && forall env: Env :: Admissible(env) && Apart(env, AllCompared(c)) ==> Fold(op, d, env) == Fold(op, c, env)
  }

  lemma SameFoldTwice(op: BinOp, c: seq<Expr>, d: seq<Expr>, e: seq<Expr>)
    requires SameFold(op, c, d) && SameFold(op, d, e)
    ensures SameFold(op, c, e)
  {
    forall env: Env | Admissible(env) && Apart(env, AllCompared(c))
      ensures Fold(op, e, env) == Fold(op, c, env)
    {
      assert Apart(env, AllCompared(d));
    }
  }

  lemma SimplifiedTwice(op: BinOp, c: seq<Expr>, d: seq<Expr>, e: seq<Expr>, found1: bool, found2: bool)
    requires Simplified(op, c, d, found1) && Simplified(op, d, e, found2)
    ensures Simplified(op, c, e, found1 || found2)
  {
    hide SameFold;
    SameFoldTwice(op, c, d, e);
  }

  lemma ReplaceKeepsFold(op: BinOp, c: seq<Expr>, i: nat, x: Expr)
    requires i < |c| && StandsFor(x, c[i])
    ensures SameFold(op, c, c[i := x])
  {
    ComparedInRow(c, i);
    AllComparedUpdate(c, i, x);
    forall env: Env | Admissible(env) && Apart(env, AllCompared(c))
      ensures Fold(op, c[i := x], env) == Fold(op, c, env)
    {
      assert Apart(env, Compared(c[i]));
      FoldReplace(op, c, i, x, env);
    }
  }

  /** Replacing one operand by one that stands for it and is no larger. */
  lemma ReplaceSimplifies(op: BinOp, c: seq<Expr>, i: nat, x: Expr, found: bool)
    requires i < |c| && StandsFor(x, c[i]) && Size(x) <= Size(c[i])
    requires found || Reducible(c[i]) ==> Reducible(x)
    requires Normal(c[i]) ==> Normal(x)
    ensures Simplified(op, c, c[i := x], found)
  {
    hide SameFold, StandsFor;
    var d := c[i := x];
    TotalSizeUpdate(c, i, x);
    ReplaceKeepsFold(op, c, i, x);
    if Reducible(x) {
      assert d[i] == x;
    } else if HasReducible(c) {
      var y :| y in c && Reducible(y);
      var k :| 0 <= k < |c| && c[k] == y;
      assert d[k] == y;
    }
  }

  lemma JoinKeepsFold(op: BinOp, c: seq<Expr>, i: nat, j: nat)
    requires i < |c| && j < |c| && i != j && Join(op, c[i], c[j]).Some?
    ensures SameFold(op, c, c[i := Neutral(op)][j := Join(op, c[i], c[j]).value])
  {
    hide Join, Fold;
    var x := Join(op, c[i], c[j]).value;
    var d := c[i := Neutral(op)];
    ComparedInRow(c, i);
    ComparedInRow(c, j);
    JoinCompared(op, c[i], c[j]);
    AllComparedUpdate(c, i, Neutral(op));
    AllComparedUpdate(d, j, x);
    forall env: Env | Admissible(env) && Apart(env, AllCompared(c))
      ensures Fold(op, d[j := x], env) == Fold(op, c, env)
    {
      assert Apart(env, Compared(c[i]) + Compared(c[j]));
      JoinKeepsValue(op, c[i], c[j], env);
      FoldJoin(op, c, i, j, x, env);
    }
  }

  /** Putting the neutral operand at `i` and the join at `j`. */
  lemma JoinSimplifies(op: BinOp, c: seq<Expr>, i: nat, j: nat)
    requires i < |c| && j < |c| && i != j
    requires Join(op, c[i], c[j]).Some? && !IsOp(op, c[i])
    ensures !IsOp(op, Join(op, c[i], c[j]).value)
    ensures Simplified(op, c, c[i := Neutral(op)][j := Join(op, c[i], c[j]).value], true)
  {
    hide SameFold, Join;
    var x := Join(op, c[i], c[j]).value;
    var d := c[i := Neutral(op)];
    JoinShape(op, c[i], c[j]);
    TotalSizeUpdate(c, i, Neutral(op));
    TotalSizeUpdate(d, j, x);
    assert d[j := x][i] == Neutral(op) && Reducible(Neutral(op));
    if AllNormal(c) {
      JoinKeepsNormal(op, c[i], c[j]);
    }
    JoinKeepsFold(op, c, i, j);
  }

  /** Two expressions over rows of the same value and number of operands. */
  lemma SameRowFacts(op: BinOp, e: Expr, e': Expr)
    requires |OperandsOf(op, e)| == |OperandsOf(op, e')|
    requires SameFold(op, OperandsOf(op, e), OperandsOf(op, e'))
    requires TotalSize(OperandsOf(op, e')) <= TotalSize(OperandsOf(op, e))
    ensures StandsFor(e', e) && Size(e') <= Size(e)
    ensures Reducible(e') <==> HasReducible(OperandsOf(op, e'))
  {
    SizeOfOperands(op, e);
    SizeOfOperands(op, e');
    ReducibleOperands(op, e');
    ComparedOfOperands(op, e);
    ComparedOfOperands(op, e');
    forall env: Env | Admissible(env) && Apart(env, Compared(e))
      ensures Eval(e', env) == Eval(e, env)
    {
      FoldOfOperands(op, e, env);
      FoldOfOperands(op, e', env);
    }
  }

  lemma SimplifiedNothing(op: BinOp, c: seq<Expr>)
    ensures Simplified(op, c, c, false)
  {
  }

  /** A row of operands of `op`. */
  ghost predicate AreOperands(op: BinOp, c: seq<Expr>) {
    forall i :: 0 <= i < |c| ==> !IsOp(op, c[i])
  }

  /** The operands `a` and `b` are still to be tried. */
  predicate Ahead(a: int, b: int, i: nat, i1: nat, j0: nat, j: nat, j1: nat) {
    j0 <= b < j1 && ((a == i < i1 && j <= b) || i < a < i1)
  }

  /** Of the operands still to be tried none joins, and none holds duplicates. */
  ghost predicate Tried(op: BinOp, c: seq<Expr>, i: nat, i1: nat, j0: nat, j: nat, j1: nat) {
    forall a, b :: 0 <= a < |c| && 0 <= b < |c| && a != b && Ahead(a, b, i, i1, j0, j, j1) ==>
      Join(op, c[a], c[b]).None? && Deduped(c[a])
  }

  lemma TriedNext(op: BinOp, c: seq<Expr>, i: nat, i1: nat, j0: nat, j: nat, j1: nat)
    requires i < i1 <= |c| && j0 <= j < j1 <= |c| && Tried(op, c, i, i1, j0, j + 1, j1)
    requires i == j || (Join(op, c[i], c[j]).None? && Deduped(c[i]))
    ensures Tried(op, c, i, i1, j0, j, j1)
  {
    hide Join, Deduped;
  }

  lemma TriedRow(op: BinOp, c: seq<Expr>, i: nat, i1: nat, j0: nat, j1: nat)
    requires i < i1 <= |c| && j0 <= j1 <= |c| && Tried(op, c, i + 1, i1, j0, j0, j1)
    ensures Tried(op, c, i, i1, j0, j1, j1)
  {
    hide Join, Deduped;
  }

  /** A pass keeps the meaning, never enlarges, leaves a removable constant
      whenever it joins something, and otherwise changes nothing and shows that
      there is nothing to join. */
  ghost predicate PassKeeps(e: Expr, r: Expr, n: nat) {
    && StandsFor(r, e) && Size(r) <= Size(e)
    && (n > 0 || Reducible(e) ==> Reducible(r))
    && (Normal(e) ==> Normal(r))
    && (n == 0 ==> r == e && Deduped(e))
  }

  lemma {:induction false} PassFacts(e: Expr)
    requires e.Bin?
    ensures var (r, n) := PassOver(e); PassKeeps(e, r, n)
    decreases Size(e), 0, 0
  {
    hide Simplified, SameFold, Reducible, StandsFor, Tried, TryAll, Deduped;
    var op, c := e.op, OperandsOf(e.op, e);
    OperandsAreSmaller(op, e);
    SizeOfOperands(op, e);
    TryAllFacts(op, c, 0, |c|, 0, 0, |c|);
    var (d, n) := TryAll(op, c, 0, |c|, 0, 0, |c|);
    var r := Rebuilt(op, e, d);
    RebuiltOperands(op, e, d);
    RebuiltSame(op, e);
    RowStandsFor(e, r, d, n);
    if n == 0 { TriedIsDeduped(e); }
  }

  lemma RowStandsFor(e: Expr, r: Expr, d: seq<Expr>, n: nat)
    requires e.Bin? && OperandsOf(e.op, r) == d && Simplified(e.op, OperandsOf(e.op, e), d, n > 0)
    ensures StandsFor(r, e) && Size(r) <= Size(e)
    ensures n > 0 || Reducible(e) ==> Reducible(r)
    ensures Normal(e) ==> Normal(r)
  {
    hide SameFold, Reducible, StandsFor;
    SameRowFacts(e.op, e, r);
    ReducibleOperands(e.op, e);
    NormalOperands(e.op, e);
    NormalOperands(e.op, r);
  }

  lemma {:induction false} TryAllFacts(op: BinOp, c: seq<Expr>, i: nat, i1: nat, j0: nat, j: nat, j1: nat)
    requires i <= i1 <= |c| && j0 <= j <= j1 <= |c| && AreOperands(op, c)
    ensures
      var (d, n) := TryAll(op, c, i, i1, j0, j, j1);
      && Simplified(op, c, d, n > 0) && AreOperands(op, d)
      && (n == 0 ==> d == c && Tried(op, c, i, i1, j0, j, j1))
    decreases TotalSize(c), 1 + i1 - i, j1 - j
  {
    hide Simplified, Join, Deduped, TryAt, AreOperands, Tried;
    if i == i1 {
      SimplifiedNothing(op, c);
      TriedNone(op, c, i, j0, j, j1);
    } else if j == j1 {
      TryAllFacts(op, c, i + 1, i1, j0, j0, j1);
      if TryAll(op, c, i + 1, i1, j0, j0, j1).1 == 0 { TriedRow(op, c, i, i1, j0, j1); }
    } else {
      TryAtFacts(op, c, i, j);
      var (d, n) := TryAt(op, c, i, j);
      TryAllFacts(op, d, i, i1, j0, j + 1, j1);
      var (f, m) := TryAll(op, d, i, i1, j0, j + 1, j1);
      SimplifiedTwice(op, c, d, f, n > 0, m > 0);
      if n + m == 0 { TriedNext(op, c, i, i1, j0, j, j1); }
    }
  }

  lemma TriedNone(op: BinOp, c: seq<Expr>, i: nat, j0: nat, j: nat, j1: nat)
    ensures Tried(op, c, i, i, j0, j, j1)
  {
  }

  lemma {:induction false} TryAtFacts(op: BinOp, c: seq<Expr>, i: nat, j: nat)
    requires i < |c| && j < |c| && AreOperands(op, c)
    ensures
      var (d, n) := TryAt(op, c, i, j);
      && Simplified(op, c, d, n > 0) && AreOperands(op, d)
      && (n == 0 ==> d == c && (i == j || (Join(op, c[i], c[j]).None? && Deduped(c[i]))))
    decreases TotalSize(c), 1, 0
  {
    hide Simplified, Join, Deduped, JoinAt, StandsFor, Reducible;
    if i == j {
      SimplifiedNothing(op, c);
    } else {
      SizeInRow(c, i);
      var (e, n) := if c[i].Bin? then PassOver(c[i]) else (c[i], 0);
      if c[i].Bin? {
        PassFacts(c[i]);
        ReplaceSimplifies(op, c, i, e, n > 0);
      } else {
        SimplifiedNothing(op, c);
        PlainIsDeduped(c[i]);
        assert c[i := e] == c;
      }
      var d := c[i := e];
      JoinAtFacts(op, d, i, j);
      var (f, m) := JoinAt(op, d, i, j);
      SimplifiedTwice(op, c, d, f, n > 0, m > 0);
      if n == 0 { assert d == c; }
    }
  }

  lemma PlainIsDeduped(e: Expr)
    requires !e.Bin?
    ensures Deduped(e)
  {
  }

  lemma JoinAtFacts(op: BinOp, c: seq<Expr>, i: nat, j: nat)
    requires i < |c| && j < |c| && i != j && AreOperands(op, c)
    ensures
      var (d, n) := JoinAt(op, c, i, j);
      && Simplified(op, c, d, n > 0) && AreOperands(op, d) && (n == 0 ==> d == c && Join(op, c[i], c[j]).None?)
  {
    hide Simplified, Join;
    if Join(op, c[i], c[j]).None? {
      SimplifiedNothing(op, c);
    } else {
      JoinSimplifies(op, c, i, j);
    }
  }

  lemma {:induction false} RebuiltOperands(op: BinOp, e: Expr, c: seq<Expr>)
    requires |c| == |OperandsOf(op, e)| && AreOperands(op, c)
    ensures OperandsOf(op, Rebuilt(op, e, c)) == c
  {
    if IsOp(op, e) {
      var n := |OperandsOf(op, e.fst)|;
      RebuiltOperands(op, e.fst, c[..n]);
      RebuiltOperands(op, e.snd, c[n..]);
      assert c[..n] + c[n..] == c;
    }
  }

  lemma {:induction false} RebuiltSame(op: BinOp, e: Expr)
    ensures Rebuilt(op, e, OperandsOf(op, e)) == e
  {
    if IsOp(op, e) {
      var a, b := OperandsOf(op, e.fst), OperandsOf(op, e.snd);
      assert (a + b)[..|a|] == a && (a + b)[|a|..] == b;
      RebuiltSame(op, e.fst);
      RebuiltSame(op, e.snd);
    }
  }

  lemma TriedIsDeduped(e: Expr)
    requires e.Bin?
    requires var c := OperandsOf(e.op, e); Tried(e.op, c, 0, |c|, 0, 0, |c|)
    ensures Deduped(e)
  {
    var c := OperandsOf(e.op, e);
    OperandsAreSmaller(e.op, e);
    forall i, j | 0 <= i < |c| && 0 <= j < |c| && i != j
      ensures Join(e.op, c[i], c[j]).None? && Deduped(c[i])
    {
      assert Ahead(i, j, 0, |c|, 0, 0, |c|);
    }
    forall x | x in c
      ensures Deduped(x)
    {
      var i :| 0 <= i < |c| && c[i] == x;
      var j := if i == 0 then 1 else 0;
      assert Join(e.op, c[i], c[j]).None? && Deduped(c[i]);
    }
  }

  // ---------- Until nothing is found ----------

  /** Passes and removals of constants in turn, until a pass finds nothing. */
  function Deduplicated(e: Expr): Expr
    decreases Size(e)
  {
    if !e.Bin? then e
    else
      var (r, n) := PassOver(e);
      if n == 0 then r
      else
        FoundShrinks(e);
        Deduplicated(ElimYn(r))
  }

  lemma FoundShrinks(e: Expr)
    requires e.Bin? && PassOver(e).1 > 0
    ensures Size(ElimYn(PassOver(e).0)) < Size(e)
  {
    PassFacts(e);
  }

  /** The result has the same meaning, is no larger, has no two operands that join
      at any level, and stays normal. */
  lemma {:induction false} DeduplicatedFacts(e: Expr)
    ensures StandsFor(Deduplicated(e), e) && Deduped(Deduplicated(e)) && Size(Deduplicated(e)) <= Size(e)
    ensures Normal(e) ==> Normal(Deduplicated(e))
    decreases Size(e)
  {
    hide StandsFor, Deduped, PassOver, Reducible;
    if !e.Bin? {
      PlainIsDeduped(e);
      StandsForItself(e);
    } else {
      PassFacts(e);
      var (r, n) := PassOver(e);
      if n > 0 {
        FoundShrinks(e);
        ElimYnStandsFor(r);
        StandsForTwice(ElimYn(r), r, e);
        if Normal(r) { ElimYnKeepsNormal(r); }
        DeduplicatedFacts(ElimYn(r));
        StandsForTwice(Deduplicated(ElimYn(r)), ElimYn(r), e);
      }
    }
  }

  lemma StandsForItself(e: Expr)
    ensures StandsFor(e, e)
  {
  }

  // ---------- Fixed points ----------

  lemma {:induction false} PassOverDeduped(e: Expr)
    requires e.Bin? && Deduped(e)
    ensures PassOver(e) == (e, 0)
    decreases Size(e), 0, 0
  {
    hide TryAll;
    var c := OperandsOf(e.op, e);
    OperandsAreSmaller(e.op, e);
    SizeOfOperands(e.op, e);
    RebuiltSame(e.op, e);
    TryAllDeduped(e.op, c, 0, |c|, 0, 0, |c|);
  }

  /** No operand joins another one or holds duplicates. */
  ghost predicate DedupedRow(op: BinOp, c: seq<Expr>) {
    && (forall i, j :: 0 <= i < |c| && 0 <= j < |c| && i != j ==> Join(op, c[i], c[j]).None?)
    && (forall x :: x in c ==> Deduped(x))
  }

  lemma {:induction false} TryAllDeduped(op: BinOp, c: seq<Expr>, i: nat, i1: nat, j0: nat, j: nat, j1: nat)
    requires i <= i1 <= |c| && j0 <= j <= j1 <= |c| && DedupedRow(op, c)
    ensures TryAll(op, c, i, i1, j0, j, j1) == (c, 0)
    decreases TotalSize(c), 1 + i1 - i, j1 - j
  {
    hide TryAt, DedupedRow;
    if i == i1 {
    } else if j == j1 {
      TryAllDeduped(op, c, i + 1, i1, j0, j0, j1);
    } else {
      TryAtDeduped(op, c, i, j);
      TryAllDeduped(op, c, i, i1, j0, j + 1, j1);
    }
  }

  lemma {:induction false} TryAtDeduped(op: BinOp, c: seq<Expr>, i: nat, j: nat)
    requires i < |c| && j < |c| && DedupedRow(op, c)
    ensures TryAt(op, c, i, j) == (c, 0)
    decreases TotalSize(c), 1, 0
  {
    hide Deduped, Join, PassOver;
    if i != j {
      SizeInRow(c, i);
      if c[i].Bin? { PassOverDeduped(c[i]); }
      assert c[i := c[i]] == c;
    }
  }

  /** The fixed points are exactly the expressions without duplicates. */
  lemma DeduplicatedFixes(e: Expr)
    ensures Deduplicated(e) == e <==> Deduped(e)
  {
    hide PassOver, Deduped;
    DeduplicatedFacts(e);
    if e.Bin? && Deduped(e) { PassOverDeduped(e); }
    if !e.Bin? { PlainIsDeduped(e); }
  }

  lemma DeduplicatedTwice(e: Expr)
    ensures Deduplicated(Deduplicated(e)) == Deduplicated(e)
  {
    DeduplicatedFacts(e);
    DeduplicatedFixes(Deduplicated(e));
  }

  // ---------- What is left, by the rules ----------

  /** At every && and || that the simplifier visits no two operands are equal, and no
      rule has them in either order. */
  predicate Irredundant(e: Expr)
    decreases Size(e)
  {
    e.Bin? ==>
      var c := OperandsOf(e.op, e);
      OperandsAreSmaller(e.op, e);
      && (forall i, j :: 0 <= i < |c| && 0 <= j < |c| && i != j ==>
            !ExprEq(c[i], c[j]) && (if e.op.OrOp? then !OrRule(c[i], c[j]) else !AndRule(c[i], c[j])))
      && (forall x :: x in c ==> Irredundant(x))
  }

  lemma {:induction false} DedupedIsIrredundant(e: Expr)
    ensures Deduped(e) <==> Irredundant(e)
    decreases Size(e)
  {
    hide Join, ExprEq, OrRule, AndRule;
    if e.Bin? {
      var c := OperandsOf(e.op, e);
      OperandsAreSmaller(e.op, e);
      forall i, j | 0 <= i < |c| && 0 <= j < |c|
        ensures Join(e.op, c[i], c[j]).None? <==>
          !ExprEq(c[i], c[j])
          && (if e.op.OrOp? then !OrRule(c[i], c[j]) && !OrRule(c[j], c[i]) else !AndRule(c[i], c[j]) && !AndRule(c[j], c[i]))
      {
        JoinsExactly(e.op, c[i], c[j]);
      }
      forall x | x in c
        ensures Deduped(x) <==> Irredundant(x)
      {
        DedupedIsIrredundant(x);
      }
    }
  }

  /** A bool symbol or its negation is y. */
  lemma TautologyIsYes(p: Sym)
    requires p.kind.Boolean?
    ensures Deduplicated(Bin(OrOp, Symbol(p), Not(Symbol(p)))) == EXPR_YES
  {
    var e := Bin(OrOp, Symbol(p), Not(Symbol(p)));
    var c := [e.fst, e.snd];
    assert OperandsOf(OrOp, e) == c;
    assert JoinOr(e.fst, e.snd) == Some(EXPR_YES) && JoinOr(EXPR_YES, EXPR_NO) == None;
    var d := [EXPR_NO, EXPR_YES];
    assert c[0 := EXPR_NO][1 := EXPR_YES] == d;
    assert TryAt(OrOp, c, 0, 1) == (d, 1) && TryAt(OrOp, d, 1, 0) == (d, 0) by {
      assert c[0 := c[0]] == c && d[1 := d[1]] == d;
    }
    assert TryAll(OrOp, d, 2, 2, 0, 0, 2) == (d, 0) && TryAll(OrOp, d, 1, 2, 0, 2, 2) == (d, 0);
    assert TryAt(OrOp, d, 1, 1) == (d, 0);
    assert TryAll(OrOp, d, 1, 2, 0, 1, 2) == (d, 0);
    assert TryAll(OrOp, d, 1, 2, 0, 0, 2) == (d, 0);
    assert TryAll(OrOp, d, 0, 2, 0, 2, 2) == (d, 0);
    assert TryAll(OrOp, c, 0, 2, 0, 1, 2) == (d, 1);
    assert TryAll(OrOp, c, 0, 2, 0, 0, 2) == (d, 1);
    assert Rebuilt(OrOp, e, d) == Bin(OrOp, EXPR_NO, EXPR_YES);
    assert PassOver(e) == (Bin(OrOp, EXPR_NO, EXPR_YES), 1);
    FoundShrinks(e);
    assert ElimYn(Bin(OrOp, EXPR_NO, EXPR_YES)) == EXPR_YES;
  }
}
