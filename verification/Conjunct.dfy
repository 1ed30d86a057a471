/** Exactly what the equality test and the "superset" test find, in terms of operands
    and regardless of their order. */
module Conjuncts {
  import opened Options
  import opened Tristates
  import opened Exprs
  import opened Equality
  import opened Joining
  import opened Transforming
  import opened Operands
  import opened Dedup
  import opened Dependencies
  import opened Supersets

  /** Equal but for the order of operands of && and ||, at every level. */
  predicate Same(a: Expr, b: Expr)
    decreases Size(a) + Size(b), 0
  {
    if a.Bin? && b.Bin? && a.op == b.op then
      var c, d := OperandsOf(a.op, a), OperandsOf(b.op, b);
      RowsAreSmaller(a);
      RowsAreSmaller(b);
      (forall x :: x in c ==> HasSame(x, d)) && (forall y :: y in d ==> IsSameAs(y, c))
    else a == b
  }

  /** Some one of `d` is the same as `x`. */
  predicate HasSame(x: Expr, d: seq<Expr>)
    decreases Size(x) + TotalSize(d), 1
  {
    InRow(d);
    exists y :: y in d && Same(x, y)
  }

  predicate IsSameAs(y: Expr, c: seq<Expr>)
    decreases Size(y) + TotalSize(c), 1
  {
    InRow(c);
    exists x :: x in c && Same(x, y)
  }

  lemma RowsAreSmaller(e: Expr)
    requires e.Bin?
    ensures TotalSize(OperandsOf(e.op, e)) < Size(e) && forall x :: x in OperandsOf(e.op, e) ==> Size(x) < Size(e)
  {
    OperandsAreSmaller(e.op, e);
    SizeOfOperands(e.op, e);
  }

  lemma {:induction false} InRow(d: seq<Expr>)
    ensures forall y :: y in d ==> Size(y) <= TotalSize(d)
  {
    if d != [] {
      InRow(d[1..]);
      assert forall y :: y in d ==> y == d[0] || y in d[1..];
    }
  }

  /** Normal, without duplicates and without constants to remove. */
  predicate Clean(e: Expr) {
    Normal(e) && Deduped(e) && Stable(e)
  }

  /** A row of clean operands, none constant, no two of them equal. */
  ghost predicate CleanRow(op: BinOp, c: seq<Expr>) {
    && AreOperands(op, c)
    && (forall i :: 0 <= i < |c| ==> Clean(c[i]) && !IsConstant(c[i]))
    && (forall i, j :: 0 <= i < |c| && 0 <= j < |c| && i != j ==> !ExprEq(c[i], c[j]))
  }

  lemma CleanOperands(op: BinOp, e: Expr)
    requires Clean(e) && !IsConstant(e)
    ensures CleanRow(op, OperandsOf(op, e))
  {
    hide ExprEq, ElimYn;
    var c := OperandsOf(op, e);
    OperandsAreSmaller(op, e);
    StableOperands(op, e);
    NormalOperands(op, e);
    if IsOp(op, e) {
      forall i, j | 0 <= i < |c| && 0 <= j < |c| && i != j
        ensures !ExprEq(c[i], c[j])
      {
        assert Join(op, c[i], c[j]).None?;
      }
    }
  }

  // ---------- Where operands go ----------

  /** After cancelling `c` and `d` are `c'` and `d'`: every operand is kept, or neutral
      together with an equal one on the other side. */
  ghost predicate Went(op: BinOp, c: seq<Expr>, c': seq<Expr>, d: seq<Expr>, d': seq<Expr>) {
    && |c'| == |c| && |d'| == |d|
    && (forall i :: 0 <= i < |c| ==> c'[i] == c[i] || LeftWith(op, c, c', d, d', i))
    && (forall j :: 0 <= j < |d| ==> d'[j] == d[j] || LeftWith'(op, c, c', d, d', j))
  }

  ghost predicate LeftWith(op: BinOp, c: seq<Expr>, c': seq<Expr>, d: seq<Expr>, d': seq<Expr>, i: nat)
    requires i < |c| == |c'| && |d| == |d'|
  {
    c'[i] == Neutral(op) && exists j :: 0 <= j < |d| && d'[j] == Neutral(op) && ExprEq(c[i], d[j])
  }

  ghost predicate LeftWith'(op: BinOp, c: seq<Expr>, c': seq<Expr>, d: seq<Expr>, d': seq<Expr>, j: nat)
    requires j < |d| == |d'| && |c| == |c'|
  {
    d'[j] == Neutral(op) && exists i :: 0 <= i < |c| && c'[i] == Neutral(op) && ExprEq(c[i], d[j])
  }

  ghost predicate NoConstant(c: seq<Expr>) {
    forall i :: 0 <= i < |c| ==> !IsConstant(c[i])
  }

  lemma EqualsNeutral(op: BinOp, x: Expr)
    ensures ExprEq(x, Neutral(op)) || ExprEq(Neutral(op), x) ==> x == Neutral(op)
  {
  }

  lemma {:induction false} NeutralCancelsNothing(op: BinOp, e: Expr)
    ensures ElimEq(op, Neutral(op), e) == (Neutral(op), e)
  {
    hide ExprEq;
    if IsOp(op, e) {
      NeutralCancelsNothing(op, e.fst);
      NeutralCancelsNothing(op, e.snd);
    } else {
      EqualsNeutral(op, e);
    }
  }

  lemma WentFirst(op: BinOp, c1: seq<Expr>, a1: seq<Expr>, c2: seq<Expr>, a2: seq<Expr>, d: seq<Expr>, f: seq<Expr>, g: seq<Expr>)
    requires NoConstant(c2) && Went(op, c1, a1, d, f) && Went(op, c2, a2, f, g)
    ensures Went(op, c1 + c2, a1 + a2, d, g)
  {
    hide ExprEq;
    var c, a, n := c1 + c2, a1 + a2, Neutral(op);
    forall i | 0 <= i < |c| && a[i] != c[i]
      ensures LeftWith(op, c, a, d, g, i)
    {
      if i < |c1| {
        var j :| 0 <= j < |d| && f[j] == n && ExprEq(c1[i], d[j]);
        assert g[j] == n;
      } else {
        var j :| 0 <= j < |d| && g[j] == n && ExprEq(c2[i - |c1|], f[j]);
        EqualsNeutral(op, c2[i - |c1|]);
        assert f[j] == d[j];
      }
    }
    forall j | 0 <= j < |d| && g[j] != d[j]
      ensures LeftWith'(op, c, a, d, g, j)
    {
      if f[j] != d[j] {
        var i :| 0 <= i < |c1| && a1[i] == n && ExprEq(c1[i], d[j]);
        assert a[i] == n && c[i] == c1[i];
      } else {
        var i :| 0 <= i < |c2| && a2[i] == n && ExprEq(c2[i], f[j]);
        assert a[|c1| + i] == n && c[|c1| + i] == c2[i];
      }
    }
  }

  lemma WentSecond(op: BinOp, x: Expr, f: Expr, g: Expr, d1: seq<Expr>, b1: seq<Expr>, d2: seq<Expr>, b2: seq<Expr>)
    requires Went(op, [x], [f], d1, b1) && !IsConstant(x)
    requires if f == x then Went(op, [x], [g], d2, b2) else g == f && b2 == d2
    ensures Went(op, [x], [g], d1 + d2, b1 + b2)
  {
    hide ExprEq;
    var d, b, n := d1 + d2, b1 + b2, Neutral(op);
    if g != x {
      assert LeftWith(op, [x], [if f != x then f else g], if f != x then d1 else d2, if f != x then b1 else b2, 0);
      if f != x {
        var j :| 0 <= j < |d1| && b1[j] == n && ExprEq(x, d1[j]);
        assert d[j] == d1[j] && b[j] == n;
      } else {
        var j :| 0 <= j < |d2| && b2[j] == n && ExprEq(x, d2[j]);
        assert d[|d1| + j] == d2[j] && b[|d1| + j] == n;
      }
      assert LeftWith(op, [x], [g], d, b, 0);
    }
    forall j | 0 <= j < |d| && b[j] != d[j]
      ensures LeftWith'(op, [x], [g], d, b, j)
    {
      if j < |d1| {
        assert LeftWith'(op, [x], [f], d1, b1, j);
        assert ExprEq(x, d1[j]) && f == n;
        assert [x][0] == x && [g][0] == n;
      } else {
        assert LeftWith'(op, [x], [g], d2, b2, j - |d1|);
        assert ExprEq(x, d2[j - |d1|]) && [x][0] == x && [g][0] == n;
      }
    }
  }

  lemma {:induction false} WhereOperandsGo(op: BinOp, e1: Expr, e2: Expr)
    requires NoConstant(OperandsOf(op, e1))
    ensures
      var (a, b) := ElimEq(op, e1, e2);
      Went(op, OperandsOf(op, e1), OperandsOf(op, a), OperandsOf(op, e2), OperandsOf(op, b))
    decreases Size(e1) + Size(e2)
  {
    hide ExprEq, Went;
    if IsOp(op, e1) {
      var (a, f) := ElimEq(op, e1.fst, e2);
      var (b, g) := ElimEq(op, e1.snd, f);
      var c1, c2 := OperandsOf(op, e1.fst), OperandsOf(op, e1.snd);
      assert forall i :: 0 <= i < |c1| ==> OperandsOf(op, e1)[i] == c1[i];
      assert forall i :: 0 <= i < |c2| ==> OperandsOf(op, e1)[|c1| + i] == c2[i];
      WhereOperandsGo(op, e1.fst, e2);
      WhereOperandsGo(op, e1.snd, f);
      WentFirst(op, c1, OperandsOf(op, a), c2, OperandsOf(op, b), OperandsOf(op, e2), OperandsOf(op, f), OperandsOf(op, g));
    } else if IsOp(op, e2) {
      assert OperandsOf(op, e1) == [e1] && [e1][0] == e1;
      var (f, a) := ElimEq(op, e1, e2.fst);
      var (g, b) := ElimEq(op, f, e2.snd);
      WhereOperandsGo(op, e1, e2.fst);
      LeafStays(op, e1, e2.fst);
      if f == e1 { WhereOperandsGo(op, e1, e2.snd); } else { NeutralCancelsNothing(op, e2.snd); }
      LeafStays(op, f, e2.snd);
      WentSecond(op, e1, f, g, OperandsOf(op, e2.fst), OperandsOf(op, a), OperandsOf(op, e2.snd), OperandsOf(op, b));
    } else {
      PairGoes(op, e1, e2);
    }
  }

  lemma {:induction false} LeafStays(op: BinOp, x: Expr, e: Expr)
    requires !IsOp(op, x)
    ensures var f := ElimEq(op, x, e).0; (f == x || f == Neutral(op)) && !IsOp(op, f) && OperandsOf(op, f) == [f]
    decreases Size(e)
  {
    hide ExprEq;
    if IsOp(op, e) {
      LeafStays(op, x, e.fst);
      LeafStays(op, ElimEq(op, x, e.fst).0, e.snd);
    }
  }

  lemma PairGoes(op: BinOp, x: Expr, y: Expr)
    requires !IsOp(op, x) && !IsOp(op, y) && !IsConstant(x)
    ensures var (a, b) := ElimEq(op, x, y); Went(op, OperandsOf(op, x), OperandsOf(op, a), OperandsOf(op, y), OperandsOf(op, b))
  {
    hide ExprEq;
    var (a, b) := ElimEq(op, x, y);
    assert OperandsOf(op, x) == [x] && OperandsOf(op, y) == [y] && OperandsOf(op, a) == [a] && OperandsOf(op, b) == [b];
    if ExprEq(x, y) {
      assert [x][0] == x && [y][0] == y && [a][0] == [b][0] == Neutral(op);
    }
  }

  /** What cancelling leaves has no equal operands in common. */
  lemma {:induction false} NoCommonRows(op: BinOp, a: Expr, b: Expr)
    requires NoCommonOperand(op, a, b)
    ensures forall x, y :: x in OperandsOf(op, a) && y in OperandsOf(op, b) && ExprEq(x, y) ==> IsConstant(x)
    decreases Size(a) + Size(b)
  {
    hide ExprEq;
    if IsOp(op, a) {
      NoCommonRows(op, a.fst, b);
      NoCommonRows(op, a.snd, b);
    } else if IsOp(op, b) {
      NoCommonRows(op, a, b.fst);
      NoCommonRows(op, a, b.snd);
    }
  }

  /** What the removal of constants makes of operands that are neutral or have none. */
  lemma {:induction false} Remains(op: BinOp, e: Expr)
    requires forall x :: x in OperandsOf(op, e) ==> x == Neutral(op) || (Stable(x) && !IsConstant(x))
    ensures
      var r := ElimYn(e);
      && (r == Neutral(op) <==> forall x :: x in OperandsOf(op, e) ==> x == Neutral(op))
      && (r == Neutral(op) || (!IsConstant(r) && (IsOp(op, r) || r in OperandsOf(op, e))))
  {
    if IsOp(op, e) {
      Remains(op, e.fst);
      Remains(op, e.snd);
      assert forall x :: x in OperandsOf(op, e) <==> x in OperandsOf(op, e.fst) || x in OperandsOf(op, e.snd);
    } else {
      assert OperandsOf(op, e) == [e] && e in OperandsOf(op, e);
    }
  }

  // ---------- Same is an equivalence ----------

  lemma {:induction false} SameItself(a: Expr)
    ensures Same(a, a)
    decreases Size(a)
  {
    hide HasSame, IsSameAs;
    if a.Bin? {
      var c := OperandsOf(a.op, a);
      OperandsAreSmaller(a.op, a);
      forall x | x in c ensures HasSame(x, c) && IsSameAs(x, c) {
        SameItself(x);
        HasIt(x, c, x);
        IsIt(x, c, x);
      }
    }
  }

  ghost predicate SameOnes(c: seq<Expr>, d: seq<Expr>) {
    (forall x :: x in c ==> HasSame(x, d)) && (forall y :: y in d ==> IsSameAs(y, c))
  }

  lemma SameRows(a: Expr, b: Expr)
    ensures a.Bin? && b.Bin? && a.op == b.op ==> (Same(a, b) <==> SameOnes(OperandsOf(a.op, a), OperandsOf(b.op, b)))
    ensures !(a.Bin? && b.Bin? && a.op == b.op) ==> (Same(a, b) <==> a == b)
  {
    hide HasSame, IsSameAs;
  }

  lemma {:induction false} SameBack(a: Expr, b: Expr)
    requires Same(a, b)
    ensures Same(b, a)
    decreases Size(a) + Size(b)
  {
    hide Same, OperandsOf, HasSame, IsSameAs;
    SameRows(a, b);
    SameRows(b, a);
    if a.Bin? && b.Bin? && a.op == b.op {
      var c, d := OperandsOf(a.op, a), OperandsOf(b.op, b);
      OperandsAreSmaller(a.op, a);
      OperandsAreSmaller(b.op, b);
      forall y | y in d ensures HasSame(y, c) {
        var x := Found(y, c);
        SameBack(x, y);
        HasIt(y, c, x);
      }
      forall x | x in c ensures IsSameAs(x, d) {
        var y := Find(x, d);
        SameBack(x, y);
        IsIt(x, d, y);
      }
    }
  }

  lemma Find(x: Expr, d: seq<Expr>) returns (y: Expr)
    requires HasSame(x, d)
    ensures y in d && Same(x, y)
  {
    y :| y in d && Same(x, y);
  }

  lemma Found(y: Expr, c: seq<Expr>) returns (x: Expr)
    requires IsSameAs(y, c)
    ensures x in c && Same(x, y)
  {
    x :| x in c && Same(x, y);
  }

  lemma HasIt(x: Expr, d: seq<Expr>, y: Expr)
    requires y in d && Same(x, y)
    ensures HasSame(x, d)
  {
  }

  lemma IsIt(y: Expr, c: seq<Expr>, x: Expr)
    requires x in c && Same(x, y)
    ensures IsSameAs(y, c)
  {
  }

  lemma {:induction false} SameOn(a: Expr, b: Expr, e: Expr)
    requires Same(a, b) && Same(b, e)
    ensures Same(a, e)
    decreases Size(a) + Size(b) + Size(e)
  {
    hide Same, OperandsOf, HasSame, IsSameAs;
    SameRows(a, b);
    SameRows(b, e);
    SameRows(a, e);
    if a.Bin? && b.Bin? && e.Bin? && a.op == b.op == e.op {
      var op := a.op;
      var c, d, f := OperandsOf(op, a), OperandsOf(op, b), OperandsOf(op, e);
      OperandsAreSmaller(op, a);
      OperandsAreSmaller(op, b);
      OperandsAreSmaller(op, e);
      forall x | x in c ensures HasSame(x, f) {
        var y := Find(x, d);
        var z := Find(y, f);
        SameOn(x, y, z);
        HasIt(x, f, z);
      }
      forall z | z in f ensures IsSameAs(z, c) {
        var y := Found(z, d);
        var x := Found(y, c);
        SameOn(x, y, z);
        IsIt(z, c, x);
      }
    }
  }

  // ---------- The equality test ----------

  /** Two clean rows of which every operand of the first equals one of the second. */
  ghost predicate Covers(c: seq<Expr>, d: seq<Expr>) {
    forall i :: 0 <= i < |c| ==> HasEqual(c[i], d)
  }

  ghost predicate HasEqual(x: Expr, d: seq<Expr>) {
    exists j :: 0 <= j < |d| && ExprEq(x, d[j])
  }

  /** Every operand of `d` equals one of `c`. */
  ghost predicate CoveredBy(c: seq<Expr>, d: seq<Expr>) {
    forall j :: 0 <= j < |d| ==> EqualsSome(c, d[j])
  }

  ghost predicate EqualsSome(c: seq<Expr>, y: Expr) {
    exists i :: 0 <= i < |c| && ExprEq(c[i], y)
  }

  /** In the row no two different operands equal the same third one. */
  ghost predicate Single(c: seq<Expr>, d: seq<Expr>) {
    forall i, k, j :: 0 <= i < |c| && 0 <= k < |c| && i != k && 0 <= j < |d| ==> !(ExprEq(c[i], d[j]) && ExprEq(c[k], d[j]))
  }

  ghost predicate Single'(c: seq<Expr>, d: seq<Expr>) {
    forall j, k, i :: 0 <= j < |d| && 0 <= k < |d| && j != k && 0 <= i < |c| ==> !(ExprEq(c[i], d[j]) && ExprEq(c[i], d[k]))
  }

  ghost predicate NoneEqual(c: seq<Expr>, d: seq<Expr>) {
    forall x, y :: x in c && y in d && ExprEq(x, y) ==> IsConstant(x)
  }

  /** Then all of them have become neutral. */
  lemma AllGone(op: BinOp, c: seq<Expr>, c': seq<Expr>, d: seq<Expr>, d': seq<Expr>)
    requires Went(op, c, c', d, d') && NoConstant(c) && NoneEqual(c', d') && Single(c, d)
    ensures Covers(c, d) <==> forall i :: 0 <= i < |c| ==> c'[i] == Neutral(op)
  {
    hide ExprEq;
    if Covers(c, d) {
      forall i | 0 <= i < |c| ensures c'[i] == Neutral(op) {
        var j :| 0 <= j < |d| && ExprEq(c[i], d[j]);
        if c'[i] == c[i] { StillThere(op, c, c', d, d', i, j); }
      }
    }
    if forall i :: 0 <= i < |c| ==> c'[i] == Neutral(op) {
      forall i | 0 <= i < |c| ensures HasEqual(c[i], d) {
        assert LeftWith(op, c, c', d, d', i);
      }
    }
  }

  /** An operand that is still there equals none of the others. */
  lemma StillThere(op: BinOp, c: seq<Expr>, c': seq<Expr>, d: seq<Expr>, d': seq<Expr>, i: nat, j: nat)
    requires Went(op, c, c', d, d') && NoConstant(c) && NoneEqual(c', d') && Single(c, d)
    requires i < |c| && j < |d| && c'[i] == c[i]
    ensures !ExprEq(c[i], d[j])
  {
    hide ExprEq;
    assert c'[i] in c' && d'[j] in d' && !IsConstant(c[i]);
    assert d'[j] != d[j] ==> LeftWith'(op, c, c', d, d', j);
  }

  lemma AllGone'(op: BinOp, c: seq<Expr>, c': seq<Expr>, d: seq<Expr>, d': seq<Expr>)
    requires Went(op, c, c', d, d') && NoConstant(d) && NoConstant(c) && NoneEqual(c', d') && Single'(c, d)
    ensures CoveredBy(c, d) <==> forall j :: 0 <= j < |d| ==> d'[j] == Neutral(op)
  {
    hide ExprEq;
    if CoveredBy(c, d) {
      forall j | 0 <= j < |d| ensures d'[j] == Neutral(op) {
        var i :| 0 <= i < |c| && ExprEq(c[i], d[j]);
        assert d'[j] in d' && c'[i] in c';
        assert c'[i] != c[i] ==> LeftWith(op, c, c', d, d', i);
      }
    }
    if forall j :: 0 <= j < |d| ==> d'[j] == Neutral(op) {
      forall j | 0 <= j < |d| ensures EqualsSome(c, d[j]) {
        assert LeftWith'(op, c, c', d, d', j);
      }
    }
  }

  // ---------- Exactly ----------

  ghost predicate Exact(x: Expr, y: Expr) {
    ExprEq(x, y) <==> Same(x, y)
  }

  /** On these rows the test finds exactly what is the same. */
  ghost predicate ExactRows(c: seq<Expr>, d: seq<Expr>) {
    forall i, j :: 0 <= i < |c| && 0 <= j < |d| ==> Exact(c[i], d[j])
  }

  ghost predicate ExactWithin(c: seq<Expr>) {
    forall i, k :: 0 <= i < |c| && 0 <= k < |c| && i != k ==> Exact(c[i], c[k])
  }

  lemma SinglesOf(op: BinOp, c: seq<Expr>, d: seq<Expr>)
    requires CleanRow(op, c) && CleanRow(op, d) && ExactRows(c, d) && ExactWithin(c) && ExactWithin(d)
    ensures Single(c, d) && Single'(c, d)
  {
    hide ExprEq, Same, Clean;
    forall i, k, j | 0 <= i < |c| && 0 <= k < |c| && i != k && 0 <= j < |d| && ExprEq(c[i], d[j]) && ExprEq(c[k], d[j])
      ensures false
    {
      assert Exact(c[i], d[j]) && Exact(c[k], d[j]) && Exact(c[i], c[k]);
      SameBack(c[k], d[j]);
      SameOn(c[i], d[j], c[k]);
    }
    forall j, k, i | 0 <= j < |d| && 0 <= k < |d| && j != k && 0 <= i < |c| && ExprEq(c[i], d[j]) && ExprEq(c[i], d[k])
      ensures false
    {
      assert Exact(c[i], d[j]) && Exact(c[i], d[k]) && Exact(d[j], d[k]);
      SameBack(c[i], d[j]);
      SameOn(d[j], c[i], d[k]);
    }
  }

  /** What is left on either side is the neutral operand exactly if every operand has an
      equal one on the other side, and otherwise it is no constant, and if it is no
      `op` one of the operands that are left. */
  ghost predicate LeftOver(op: BinOp, c: seq<Expr>, d: seq<Expr>, a: Expr, b: Expr) {
    && (ElimYn(a) == Neutral(op) <==> Covers(c, d)) && (ElimYn(b) == Neutral(op) <==> CoveredBy(c, d))
    && (ElimYn(a) == Neutral(op) || (!IsConstant(ElimYn(a)) && (IsOp(op, ElimYn(a)) || ElimYn(a) in OperandsOf(op, a))))
    && (ElimYn(b) == Neutral(op) || (!IsConstant(ElimYn(b)) && (IsOp(op, ElimYn(b)) || ElimYn(b) in OperandsOf(op, b))))
    && NoneEqual(OperandsOf(op, a), OperandsOf(op, b))
  }

  lemma CancelledRows(op: BinOp, e1: Expr, e2: Expr)
    requires CleanRow(op, OperandsOf(op, e1)) && CleanRow(op, OperandsOf(op, e2))
    requires Single(OperandsOf(op, e1), OperandsOf(op, e2)) && Single'(OperandsOf(op, e1), OperandsOf(op, e2))
    ensures
      var (a, b) := ElimEq(op, e1, e2);
      LeftOver(op, OperandsOf(op, e1), OperandsOf(op, e2), a, b)
  {
    var (a, b) := ElimEq(op, e1, e2);
    var c, d := OperandsOf(op, e1), OperandsOf(op, e2);
    var c', d' := OperandsOf(op, a), OperandsOf(op, b);
    hide ExprEq, ElimEq, OperandsOf, Single, Single', Normal, Deduped, ElimYn, Covers, CoveredBy, LeftWith, LeftWith';
    WhereOperandsGo(op, e1, e2);
    ElimEqComplete(op, e1, e2);
    NoCommonRows(op, a, b);
    AllGone(op, c, c', d, d');
    AllGone'(op, c, c', d, d');
    LeftAreClean(op, c, c', d, d');
    Remains(op, a);
    Remains(op, b);
    InOrAt(c', Neutral(op));
    InOrAt(d', Neutral(op));
  }

  lemma InOrAt(c: seq<Expr>, n: Expr)
    ensures (forall x :: x in c ==> x == n) <==> forall i :: 0 <= i < |c| ==> c[i] == n
  {
    assert forall i :: 0 <= i < |c| ==> c[i] in c;
  }

  lemma LeftAreClean(op: BinOp, c: seq<Expr>, c': seq<Expr>, d: seq<Expr>, d': seq<Expr>)
    requires Went(op, c, c', d, d') && CleanRow(op, c) && CleanRow(op, d)
    ensures forall x :: x in c' || x in d' ==> x == Neutral(op) || (Stable(x) && !IsConstant(x))
  {
    hide ExprEq, ElimYn, Normal, Deduped;
    forall x | x in c' ensures x == Neutral(op) || (Stable(x) && !IsConstant(x)) {
      var i :| 0 <= i < |c'| && c'[i] == x;
      assert Clean(c[i]);
    }
    forall x | x in d' ensures x == Neutral(op) || (Stable(x) && !IsConstant(x)) {
      var j :| 0 <= j < |d'| && d'[j] == x;
      assert Clean(d[j]);
    }
  }

  lemma {:induction false} TwoInRow(c: seq<Expr>, i: nat, k: nat)
    requires i < |c| && k < |c| && i != k
    ensures Size(c[i]) + Size(c[k]) <= TotalSize(c)
  {
    if i == 0 {
      SizeInRow(c[1..], k - 1);
    } else if k == 0 {
      SizeInRow(c[1..], i - 1);
    } else {
      TwoInRow(c[1..], i - 1, k - 1);
    }
  }

  /** On clean expressions the equality test decides exactly whether they are the same
      but for the order of operands. */
  lemma {:induction false} EqualsExactly(a: Expr, b: Expr)
    requires Clean(a) && Clean(b)
    ensures ExprEq(a, b) <==> Same(a, b)
    decreases Size(a) + Size(b)
  {
    hide Normal, Deduped, ElimYn, HasSame, IsSameAs, EliminateEq;
    if a.Bin? && b.Bin? && a.op == b.op {
      CleanIsNoConstant(a);
      CleanIsNoConstant(b);
      CleanOperands(a.op, a);
      CleanOperands(b.op, b);
      RowsExact(a, b);
      BinsEqual(a, b);
    } else if a.Not? && b.Not? {
      NotsEqual(a, b);
    }
  }

  lemma CleanIsNoConstant(e: Expr)
    requires e.Bin?
    ensures !IsConstant(e)
  {
  }

  lemma NotsEqual(a: Expr, b: Expr)
    requires a.Not? && b.Not? && Normal(a) && Normal(b)
    ensures ExprEq(a, b) <==> a == b
  {
  }

  lemma {:induction false} RowsExact(a: Expr, b: Expr)
    requires a.Bin? && b.Bin? && a.op == b.op
    requires CleanRow(a.op, OperandsOf(a.op, a)) && CleanRow(b.op, OperandsOf(b.op, b))
    ensures
      var c, d := OperandsOf(a.op, a), OperandsOf(b.op, b);
      ExactRows(c, d) && ExactWithin(c) && ExactWithin(d)
    decreases Size(a) + Size(b), 0
  {
    hide Clean, ExprEq, Same, OperandsOf, Size, TotalSize;
    var c, d := OperandsOf(a.op, a), OperandsOf(b.op, b);
    RowsAreSmaller(a);
    RowsAreSmaller(b);
    forall i, j | 0 <= i < |c| && 0 <= j < |d| ensures Exact(c[i], d[j]) {
      assert c[i] in c && d[j] in d;
      EqualsExactly(c[i], d[j]);
    }
    forall i, k | 0 <= i < |c| && 0 <= k < |c| && i != k ensures Exact(c[i], c[k]) {
      TwoInRow(c, i, k);
      EqualsExactly(c[i], c[k]);
    }
    forall i, k | 0 <= i < |d| && 0 <= k < |d| && i != k ensures Exact(d[i], d[k]) {
      TwoInRow(d, i, k);
      EqualsExactly(d[i], d[k]);
    }
  }

  /** The rows of two expressions of one operator. */
  lemma BinsEqual(a: Expr, b: Expr)
    requires a.Bin? && b.Bin? && a.op == b.op
    requires CleanRow(a.op, OperandsOf(a.op, a)) && CleanRow(b.op, OperandsOf(b.op, b))
    requires
      var c, d := OperandsOf(a.op, a), OperandsOf(b.op, b);
      ExactRows(c, d) && ExactWithin(c) && ExactWithin(d)
    ensures ExprEq(a, b) <==> Same(a, b)
  {
    var op := a.op;
    var c, d := OperandsOf(op, a), OperandsOf(op, b);
    var (x, y) := ElimEq(op, a, b);
    EliminateOne(a, b);
    hide OperandsOf, Same, ElimEq, ElimYn, EliminateEq, CleanRow, Covers, CoveredBy, ExactRows, ExactWithin, NoneEqual, Single, Single';
    SinglesOf(op, c, d);
    CancelledRows(op, a, b);
    SameRows(a, b);
    CoversSame(c, d);
    var r, q := ElimYn(x), ElimYn(y);
    if r.Symbol? && r == q && r != Neutral(op) {
      NotBothLeft(OperandsOf(op, x), OperandsOf(op, y), r);
    }
  }

  lemma EliminateOne(a: Expr, b: Expr)
    requires a.Bin? && b.Bin? && a.op == b.op
    ensures var (x, y) := ElimEq(a.op, a, b); ExprEq(a, b) <==> ElimYn(x).Symbol? && ElimYn(x) == ElimYn(y)
  {
    hide ElimYn, ElimEq, ExprEq, EliminateEq;
    BinsTested(a, b);
    OneLevel(a, b);
  }

  lemma OneLevel(a: Expr, b: Expr)
    requires a.Bin? && b.Bin? && a.op == b.op
    ensures EliminateEq(a, b) == (ElimYn(ElimEq(a.op, a, b).0), ElimYn(ElimEq(a.op, a, b).1))
  {
    ElimEqKeepsOp(a.op, a, b);
    hide ElimYn, ElimEq, ExprEq;
    var x, y := ElimEq(a.op, a, b).0, ElimEq(a.op, a, b).1;
    assert y.Bin? && !IsOp(y.op, x) ==> y.op != a.op;
    OtherLevel(a.op, a, b);
  }

  /** An expression of one operator stays one of it. */
  lemma {:induction false} OtherLevel(op: BinOp, a: Expr, b: Expr)
    requires IsOp(op, b)
    ensures IsOp(op, ElimEq(op, a, b).1)
    decreases Size(a) + Size(b)
  {
    hide ExprEq;
    if IsOp(op, a) {
      OtherLevel(op, a.fst, b);
      OtherLevel(op, a.snd, ElimEq(op, a.fst, b).1);
    }
  }

  lemma BinsTested(a: Expr, b: Expr)
    requires a.Bin? && b.Bin? && a.op == b.op
    ensures ExprEq(a, b) <==> EliminateEq(a, b).0.Symbol? && EliminateEq(a, b).0 == EliminateEq(a, b).1
  {
    hide EliminateEq;
  }

  lemma ElimEqKeepsOp(op: BinOp, a: Expr, b: Expr)
    requires IsOp(op, a)
    ensures IsOp(op, ElimEq(op, a, b).0)
  {
    hide ExprEq;
  }

  lemma {:induction false} ElimEqKeepsOther(op: BinOp, a: Expr, b: Expr)
    requires IsOp(op, b)
    ensures IsOp(op, ElimEq(op, a, b).1)
    decreases Size(a)
  {
    hide ExprEq;
    if IsOp(op, a) {
      ElimEqKeepsOther(op, a.fst, b);
      ElimEqKeepsOther(op, a.snd, ElimEq(op, a.fst, b).1);
    }
  }

  lemma NotBothLeft(c: seq<Expr>, d: seq<Expr>, r: Expr)
    requires r in c && r in d && r.Symbol? && NoneEqual(c, d)
    ensures IsConstant(r)
  {
    assert ExprEq(r, r);
  }

  lemma CoversSame(c: seq<Expr>, d: seq<Expr>)
    requires ExactRows(c, d)
    ensures SameOnes(c, d) <==> Covers(c, d) && CoveredBy(c, d)
  {
    hide ExprEq, Same;
    forall i | 0 <= i < |c| ensures HasSame(c[i], d) <==> HasEqual(c[i], d) {
      assert forall j :: 0 <= j < |d| ==> Exact(c[i], d[j]);
    }
    forall j | 0 <= j < |d| ensures IsSameAs(d[j], c) <==> EqualsSome(c, d[j]) {
      assert forall i :: 0 <= i < |c| ==> Exact(c[i], d[j]);
    }
    hide HasSame, IsSameAs, HasEqual, EqualsSome;
  }

  // ---------- The superset test ----------

  lemma CleanRowsExact(op: BinOp, c: seq<Expr>, d: seq<Expr>)
    requires CleanRow(op, c) && CleanRow(op, d)
    ensures ExactRows(c, d) && Single(c, d) && Single'(c, d)
  {
    hide Clean, ExprEq, Same;
    forall i, j | 0 <= i < |c| && 0 <= j < |d| ensures Exact(c[i], d[j]) {
      EqualsExactly(c[i], d[j]);
    }
    forall i, k | 0 <= i < |c| && 0 <= k < |c| && i != k ensures Exact(c[i], c[k]) {
      EqualsExactly(c[i], c[k]);
    }
    forall i, k | 0 <= i < |d| && 0 <= k < |d| && i != k ensures Exact(d[i], d[k]) {
      EqualsExactly(d[i], d[k]);
    }
    SinglesOf(op, c, d);
  }

  /** With operands blanked an expression does not become the absorbing constant. */
  lemma {:induction false} BlankedNeverAbsorbs(op: BinOp, e: Expr, e': Expr)
    requires Blanked(op, e, e') && forall x :: x in OperandsOf(op, e) ==> Stable(x) && !IsConstant(x)
    ensures ElimYn(e') != Absorbing(op)
  {
    if IsOp(op, e) {
      BlankedNeverAbsorbs(op, e.fst, e'.fst);
      BlankedNeverAbsorbs(op, e.snd, e'.snd);
    } else {
      assert e in OperandsOf(op, e);
    }
  }

  /** Cancelling against the operands of an || never leaves y. */
  lemma OrNeverYes(t: Expr, b: Expr)
    requires Clean(b) && !IsConstant(b) && !IsOp(AndOp, b)
    ensures ElimYn(ElimEq(OrOp, t, b).1) != EXPR_YES
  {
    hide ExprEq, ElimEq, ElimYn, Normal, Deduped;
    ElimEqComplete(OrOp, t, b);
    StableOperands(OrOp, b);
    BlankedNeverAbsorbs(OrOp, b, ElimEq(OrOp, t, b).1);
  }

  /** If one operand is left alone nothing has been cancelled against it. */
  lemma {:induction false} Untouched(op: BinOp, e: Expr, y: Expr)
    requires !IsOp(op, y) && y != Neutral(op)
    ensures var (a, b) := ElimEq(op, e, y); (b == y && a == e) || b == Neutral(op)
    decreases Size(e)
  {
    hide ExprEq;
    if IsOp(op, e) {
      Untouched(op, e.fst, y);
      var f := ElimEq(op, e.fst, y).1;
      if f == y { Untouched(op, e.snd, y); } else { AgainstNeutral(op, e.snd); }
    }
  }

  lemma {:induction false} AgainstNeutral(op: BinOp, e: Expr)
    ensures ElimEq(op, e, Neutral(op)) == (e, Neutral(op))
    decreases Size(e)
  {
    hide ExprEq;
    if IsOp(op, e) {
      AgainstNeutral(op, e.fst);
      AgainstNeutral(op, e.snd);
    } else {
      EqualsNeutral(op, e);
    }
  }

  /** The rows of && of two tests: exactly what has an equal goes. */
  lemma AndRows(t: Expr, b: Expr)
    requires Clean(t) && Clean(b) && !IsConstant(t) && !IsConstant(b)
    ensures
      ElimYn(ElimEq(AndOp, t, b).1) == EXPR_YES <==>
        forall y :: y in OperandsOf(AndOp, b) ==> IsSameAs(y, OperandsOf(AndOp, t))
    ensures |OperandsOf(AndOp, t)| == 1 && |OperandsOf(AndOp, b)| >= 2 ==> ElimYn(ElimEq(AndOp, t, b).1) != EXPR_YES
  {
    var c, d := OperandsOf(AndOp, t), OperandsOf(AndOp, b);
    CleanOperands(AndOp, t);
    CleanOperands(AndOp, b);
    hide Clean, ExprEq, ElimEq, ElimYn, CleanRow, Covers, CoveredBy, Same, IsSameAs, HasSame, NoneEqual, OperandsOf;
    CleanRowsExact(AndOp, c, d);
    CancelledRows(AndOp, t, b);
    CoveredSame(c, d);
    if |c| == 1 && |d| >= 2 { NotTwice(c, d); }
  }

  lemma CoveredSame(c: seq<Expr>, d: seq<Expr>)
    requires ExactRows(c, d)
    ensures CoveredBy(c, d) <==> forall y :: y in d ==> IsSameAs(y, c)
  {
    hide ExprEq, Same;
    forall j | 0 <= j < |d| ensures IsSameAs(d[j], c) <==> EqualsSome(c, d[j]) {
      assert forall i :: 0 <= i < |c| ==> Exact(c[i], d[j]);
    }
    hide IsSameAs, EqualsSome;
    assert forall j :: 0 <= j < |d| ==> d[j] in d;
  }

  lemma NotTwice(c: seq<Expr>, d: seq<Expr>)
    requires |c| == 1 && |d| >= 2 && Single'(c, d)
    ensures !CoveredBy(c, d)
  {
    hide ExprEq;
    assert EqualsSome(c, d[0]) ==> ExprEq(c[0], d[0]);
    assert EqualsSome(c, d[1]) ==> ExprEq(c[0], d[1]);
  }

  /** Between clean tests the superset test passes exactly if one of them is an && and
      every operand of the visibility's, under &&, is the same as one of the entry's,
      but for the order of operands inside. */
  lemma NothingLeftExactly(t: Expr, b: Expr)
    requires Clean(t) && Clean(b) && !IsConstant(t) && !IsConstant(b)
    ensures NothingLeft(t, b) <==>
      (IsOp(AndOp, t) || IsOp(AndOp, b)) && forall y :: y in OperandsOf(AndOp, b) ==> IsSameAs(y, OperandsOf(AndOp, t))
  {
    AndRows(t, b);
    OperandsAreSmaller(AndOp, b);
    hide Clean, ExprEq, IsSameAs;
    if IsOp(AndOp, t) {
      AndTest(t, b);
    } else if IsOp(AndOp, b) {
      OtherTest(t, b);
      assert OperandsOf(AndOp, t) == [t];
    } else {
      NeitherTest(t, b);
    }
  }

  lemma AndTest(t: Expr, b: Expr)
    requires IsOp(AndOp, t) && Clean(b) && !IsConstant(b)
    ensures NothingLeft(t, b) <==> ElimYn(ElimEq(AndOp, t, b).1) == EXPR_YES
  {
    var (a, x) := ElimEq(AndOp, t, b);
    ElimEqKeepsOp(AndOp, t, b);
    if IsOp(AndOp, b) {
      OtherLevel(AndOp, t, b);
      hide ElimEq, ElimYn, Clean;
    } else {
      Untouched(AndOp, t, b);
      OrNeverYes(a, b);
      hide ElimEq, Normal, Deduped;
    }
  }

  lemma OtherTest(t: Expr, b: Expr)
    requires !IsOp(AndOp, t) && IsOp(AndOp, b)
    ensures NothingLeft(t, b) ==> ElimYn(ElimEq(AndOp, t, b).1) == EXPR_YES
  {
    if t.Bin? { Untouched(OrOp, t, b); }
    hide ElimEq;
  }

  lemma NeitherTest(t: Expr, b: Expr)
    requires !IsOp(AndOp, t) && !IsOp(AndOp, b) && Clean(b) && !IsConstant(b)
    ensures !NothingLeft(t, b)
  {
    OrNeverYes(t, b);
    if t.Bin? {
      ElimEqKeepsOp(OrOp, t, b);
      if b.Bin? { ElimEqKeepsOther(OrOp, t, b); } else { Untouched(OrOp, t, b); }
    }
    hide ElimEq, Normal, Deduped;
  }

  /** Constants are never cancelled. */
  lemma {:induction false} ConstantStays(op: BinOp, c: Expr, e: Expr)
    requires IsConstant(c)
    ensures ElimEq(op, e, c).1 == c && ElimEq(op, c, e) == (c, e)
    decreases Size(e)
  {
    if IsOp(op, e) {
      hide ExprEq;
      ConstantStays(op, c, e.fst);
      ConstantStays(op, c, e.snd);
    }
  }

  lemma ConstantBase(t: Expr, b: Expr)
    requires IsConstant(b)
    ensures NothingLeft(t, b) <==> b == EXPR_YES
  {
    if t.Bin? { ConstantStays(t.op, b, t); }
    hide ElimEq;
  }

  lemma ConstantTest(t: Expr, b: Expr)
    requires IsConstant(t) && Stable(b) && !IsConstant(b)
    ensures !NothingLeft(t, b)
  {
    if b.Bin? { ConstantStays(b.op, t, b); }
    hide ElimEq;
  }

  /** So of dependencies and visibilities that compare no bool symbol with m exactly
      those pass whose tests are related so, or whose visibility's test is y. */
  lemma PassesExactly(dep: Expr, vis: Expr)
    requires NoBoolIsM(dep) && NoBoolIsM(vis)
    ensures
      var t, b := TestOf(Some(dep)), TestOf(Some(vis));
      Passes(Some(dep), Some(vis)) <==>
        || b == EXPR_YES
        || (!IsConstant(t) && !IsConstant(b) && (IsOp(AndOp, t) || IsOp(AndOp, b))
            && forall y :: y in OperandsOf(AndOp, b) ==> IsSameAs(y, OperandsOf(AndOp, t)))
  {
    hide TestOf, Normal, Deduped, Stable, NothingLeft, IsSameAs;
    var t, b := TestOf(Some(dep)), TestOf(Some(vis));
    TestFacts(dep);
    TestFacts(vis);
    if IsConstant(b) { ConstantBase(t, b); }
    else if IsConstant(t) { ConstantTest(t, b); }
    else { NothingLeftExactly(t, b); }
  }
}
