/** The same rewrites on linked nodes, which are overwritten in place. */
module ExprNodes {
  import opened Options
  import opened Tristates
  import opened Exprs
  import opened Equality
  import opened Transforming
  import Dups

  datatype Tag = IsSym(sym: Sym) | IsComp(rel: Rel, l: Sym, r: Sym) | IsNot | IsBin(op: BinOp)

  class Node {
    var tag: Tag
    var left: Node?
    var right: Node?

    constructor (tag: Tag, left: Node?, right: Node?)
      ensures this.tag == tag && this.left == left && this.right == right
    {
      this.tag, this.left, this.right := tag, left, right;
    }
  }

  /** The nodes of an expression. */
  datatype Tree =
    | Leaf(node: Node, tag: Tag)
    | One(node: Node, arg: Tree)
    | Two(node: Node, op: BinOp, fst: Tree, snd: Tree)

  ghost function Nodes(t: Tree): set<Node> {
    match t
    case Leaf(n, _) => {n}
    case One(n, a) => {n} + Nodes(a)
    case Two(n, _, a, b) => {n} + Nodes(a) + Nodes(b)
  }

  /** No node occurs twice. */
  ghost predicate Tidy(t: Tree) {
    match t
    case Leaf(_, tag) => tag.IsSym? || tag.IsComp?
    case One(n, a) => n !in Nodes(a) && Tidy(a)
    case Two(n, _, a, b) => n !in Nodes(a) && n !in Nodes(b) && Nodes(a) !! Nodes(b) && Tidy(a) && Tidy(b)
  }

  /** The fields of the nodes spell out `t`. */
  ghost predicate Holds(t: Tree)
    reads Nodes(t)
  {
    match t
    case Leaf(n, tag) => n.tag == tag
    case One(n, a) => n.tag == IsNot && n.left == a.node && Holds(a)
    case Two(n, op, a, b) => n.tag == IsBin(op) && n.left == a.node && n.right == b.node && Holds(a) && Holds(b)
  }

  ghost function Value(t: Tree): Expr {
    match t
    case Leaf(_, tag) => if tag.IsComp? then Comp(tag.rel, tag.l, tag.r) else if tag.IsSym? then Symbol(tag.sym) else EXPR_NO
    case One(_, a) => Not(Value(a))
    case Two(_, op, a, b) => Bin(op, Value(a), Value(b))
  }

  lemma {:induction false} NodesAllocated(t: Tree)
    ensures forall n :: n in Nodes(t) ==> allocated(n)
  {
    match t
    case Leaf(_, _) =>
    case One(_, a) => NodesAllocated(a);
    case Two(_, _, a, b) =>
      NodesAllocated(a);
      NodesAllocated(b);
  }

  /** What a node of `op` is made of. */
  lemma Parts(t: Tree)
    requires t.Two? && Tidy(t) && Holds(t)
    ensures
      var n, a, b := t.node, t.fst, t.snd;
      && Tidy(a) && Tidy(b) && Holds(a) && Holds(b) && n.left == a.node && n.right == b.node && n.tag == IsBin(t.op)
      && Nodes(t) == {n} + Nodes(a) + Nodes(b) && n !in Nodes(a) && n !in Nodes(b) && Nodes(a) !! Nodes(b)
      && Value(t) == Bin(t.op, Value(a), Value(b))
      && Size(Value(t)) == 1 + Size(Value(a)) + Size(Value(b)) && IsOp(t.op, Value(t))
  {
  }

  lemma Assemble(n: Node, op: BinOp, a: Tree, b: Tree)
    requires Tidy(a) && Tidy(b) && Holds(a) && Holds(b) && n.left == a.node && n.right == b.node && n.tag == IsBin(op)
    requires n !in Nodes(a) && n !in Nodes(b) && Nodes(a) !! Nodes(b)
    ensures
      var t := Two(n, op, a, b);
      Tidy(t) && Holds(t) && Nodes(t) == {n} + Nodes(a) + Nodes(b) && Value(t) == Bin(op, Value(a), Value(b))
  {
  }

  /** The tree `t` with its root moved to the node `n`. */
  ghost function Moved(t: Tree, n: Node): Tree {
    match t
    case Leaf(_, tag) => Leaf(n, tag)
    case One(_, a) => One(n, a)
    case Two(_, op, a, b) => Two(n, op, a, b)
  }

  lemma MovedFacts(t: Tree, n: Node)
    requires Tidy(t) && n !in Nodes(t)
    ensures Tidy(Moved(t, n)) && Value(Moved(t, n)) == Value(t)
    ensures Nodes(Moved(t, n)) <= Nodes(t) + {n} && Moved(t, n).node == n
  {
  }

  /** Overwrites the node `n` with the root of `t`. */
  method Overwrite(n: Node, m: Node, ghost t: Tree)
    requires Tidy(t) && Holds(t) && t.node == m && n !in Nodes(t)
    modifies n
    ensures Holds(Moved(t, n))
  {
    n.tag, n.left, n.right := m.tag, m.left, m.right;
  }

  // ---------- Removing constants ----------

  predicate IsLeafOf(s: Sym, n: Node)
    reads n
  {
    n.tag == IsSym(s)
  }

  function NeutralSym(op: BinOp): Sym {
    if op.AndOp? then SYM_YES else SYM_NO
  }

  function AbsorbingSym(op: BinOp): Sym {
    if op.AndOp? then SYM_NO else SYM_YES
  }

  lemma LeafValue(t: Tree, s: Sym)
    requires Tidy(t) && Holds(t)
    ensures IsLeafOf(s, t.node) <==> Value(t) == Symbol(s)
  {
  }

  /** Removes y and n operands from the bottom up; the root stays the root. */
  method EliminateYn(n: Node, ghost t: Tree) returns (ghost u: Tree)
    requires Tidy(t) && Holds(t) && t.node == n
    modifies Nodes(t)
    ensures Tidy(u) && Holds(u) && u.node == n && Nodes(u) <= Nodes(t)
    ensures Value(u) == ElimYn(Value(t))
    decreases t
  {
    u := t;
    if n.tag.IsBin? {
      hide Tidy, Holds, Nodes, Value;
      var op := n.tag.op;
      IsTwo(t);
      Parts(t);
      NodesAllocated(t.snd);
      ghost var a := EliminateYn(n.left, t.fst);
      NodesAllocated(a);
      ghost var b := EliminateYn(n.right, t.snd);
      Assemble(n, op, a, b);
      u := RemoveConstant(n, op, a, b);
    }
  }

  lemma IsTwo(t: Tree)
    requires Tidy(t) && Holds(t) && t.node.tag.IsBin?
    ensures t.Two? && t.op == t.node.tag.op
  {
  }

  /** One node whose operands are done. */
  method RemoveConstant(n: Node, op: BinOp, ghost a: Tree, ghost b: Tree) returns (ghost u: Tree)
    requires Tidy(Two(n, op, a, b)) && Holds(Two(n, op, a, b))
    modifies n
    ensures Tidy(u) && Holds(u) && u.node == n && Nodes(u) <= Nodes(Two(n, op, a, b))
    ensures
      var l, r := Value(a), Value(b);
      Value(u) == if l == Absorbing(op) then Absorbing(op)
                  else if l == Neutral(op) then r
                  else if r == Absorbing(op) then Absorbing(op)
                  else if r == Neutral(op) then l
                  else Bin(op, l, r)
  {
    LeafValue(a, NeutralSym(op));
    LeafValue(a, AbsorbingSym(op));
    LeafValue(b, NeutralSym(op));
    LeafValue(b, AbsorbingSym(op));
    if IsLeafOf(AbsorbingSym(op), n.left) || (!IsLeafOf(NeutralSym(op), n.left) && IsLeafOf(AbsorbingSym(op), n.right)) {
      n.tag, n.left, n.right := IsSym(AbsorbingSym(op)), null, null;
      u := Leaf(n, IsSym(AbsorbingSym(op)));
    } else if IsLeafOf(NeutralSym(op), n.left) {
      MovedFacts(b, n);
      Overwrite(n, n.right, b);
      u := Moved(b, n);
    } else if IsLeafOf(NeutralSym(op), n.right) {
      MovedFacts(a, n);
      Overwrite(n, n.left, a);
      u := Moved(a, n);
    } else {
      u := Two(n, op, a, b);
    }
  }

  /** FOO!=n becomes FOO in the nodes of tristate symbols. */
  method TransformBool(n: Node, ghost t: Tree) returns (ghost u: Tree)
    requires Tidy(t) && Holds(t) && t.node == n
    modifies Nodes(t)
    ensures Tidy(u) && Holds(u) && u.node == n && Nodes(u) == Nodes(t)
    ensures Value(u) == TransBool(Value(t))
    decreases t
  {
    u := t;
    match n.tag {
      case IsBin(op) =>
        NodesAllocated(t.snd);
        ghost var a := TransformBool(n.left, t.fst);
        NodesAllocated(a);
        ghost var b := TransformBool(n.right, t.snd);
        u := Two(n, op, a, b);
      case IsNot =>
        ghost var a := TransformBool(n.left, t.arg);
        u := One(n, a);
      case IsComp(rel, l, r) =>
        if rel.Ne? && l.kind.TristateKind? && r == SYM_NO {
          n.tag := IsSym(l);
          u := Leaf(n, IsSym(l));
        }
      case IsSym(_) =>
    }
  }

  // ---------- Copies ----------

  method Copy(n: Node, ghost t: Tree) returns (m: Node, ghost u: Tree)
    requires Tidy(t) && Holds(t) && t.node == n
    ensures Tidy(u) && Holds(u) && u.node == m && fresh(Nodes(u)) && Value(u) == Value(t)
    decreases t, 1
  {
    NodesAllocated(t);
    if n.tag.IsBin? {
      m, u := CopyTwo(n, t);
    } else if n.tag.IsNot? {
      var l, a := Copy(n.left, t.arg);
      NodesAllocated(a);
      m := new Node(n.tag, l, null);
      u := One(m, a);
    } else {
      m := new Node(n.tag, null, null);
      u := Leaf(m, n.tag);
    }
  }

  method CopyTwo(n: Node, ghost t: Tree) returns (m: Node, ghost u: Tree)
    requires Tidy(t) && Holds(t) && t.node == n && t.Two?
    ensures Tidy(u) && Holds(u) && u.node == m && fresh(Nodes(u)) && Value(u) == Value(t)
    decreases t, 0
  {
    NodesAllocated(t.snd);
    var l, a := Copy(n.left, t.fst);
    NodesAllocated(a);
    var r, b := Copy(n.right, t.snd);
    NodesAllocated(b);
    m := new Node(n.tag, l, r);
    u := Two(m, t.op, a, b);
  }

  // ---------- Cancelling ----------

  lemma ElimEqLeft(op: BinOp, e1: Expr, e2: Expr)
    requires IsOp(op, e1)
    ensures
      var (a, f) := ElimEq(op, e1.fst, e2);
      var (b, g) := ElimEq(op, e1.snd, f);
      ElimEq(op, e1, e2) == (Bin(op, a, b), g)
  {
  }

  lemma ElimEqRight(op: BinOp, e1: Expr, e2: Expr)
    requires !IsOp(op, e1) && IsOp(op, e2)
    ensures
      var (f, a) := ElimEq(op, e1, e2.fst);
      var (g, b) := ElimEq(op, f, e2.snd);
      ElimEq(op, e1, e2) == (g, Bin(op, a, b))
  {
  }

  lemma ElimEqLeaves(op: BinOp, e1: Expr, e2: Expr)
    requires !IsOp(op, e1) && !IsOp(op, e2)
    ensures ElimEq(op, e1, e2) ==
      if (e1 == e2 && (e1 == EXPR_YES || e1 == EXPR_NO)) || !ExprEq(e1, e2) then (e1, e2)
      else (Neutral(op), Neutral(op))
  {
  }

  lemma RootValue(t: Tree, op: BinOp)
    requires Tidy(t) && Holds(t)
    ensures t.node.tag == IsBin(op) <==> IsOp(op, Value(t))
    ensures IsOp(op, Value(t)) ==> t.Two? && Value(t) == Bin(op, Value(t.fst), Value(t.snd))
  {
  }

  lemma ElimEqShrinks(op: BinOp, e1: Expr, e2: Expr)
    ensures Size(ElimEq(op, e1, e2).0) <= Size(e1) && Size(ElimEq(op, e1, e2).1) <= Size(e2)
  {
    hide ElimEq;
  }

  /** Walks both expressions and replaces equal operands of `op`, other than y
      and n, by new nodes with the neutral operand; returns the new roots. */
  method CancelOperands(op: BinOp, n1: Node, n2: Node, count: Dups.Counter, ghost t1: Tree, ghost t2: Tree)
    returns (m1: Node, m2: Node, ghost u1: Tree, ghost u2: Tree, ghost news: set<Node>)
    requires Tidy(t1) && Holds(t1) && t1.node == n1 && Tidy(t2) && Holds(t2) && t2.node == n2
    requires Nodes(t1) !! Nodes(t2)
    modifies Nodes(t1), Nodes(t2), count
    ensures Tidy(u1) && Holds(u1) && u1.node == m1 && Tidy(u2) && Holds(u2) && u2.node == m2
    ensures Nodes(u1) !! Nodes(u2) && fresh(news) && Nodes(u1) <= Nodes(t1) + news && Nodes(u2) <= Nodes(t2) + news
    ensures (Value(u1), Value(u2)) == ElimEq(op, Value(t1), Value(t2)) && count.n >= old(count.n)
    decreases Size(Value(t1)) + Size(Value(t2)), if IsOp(op, Value(t1)) || IsOp(op, Value(t2)) then 0 else 3, 1
  {
    hide ElimEq, ExprEq;
    RootValue(t1, op);
    RootValue(t2, op);
    if n1.tag == IsBin(op) {
      m1, m2, u1, u2, news := CancelLeft(op, n1, n2, count, t1, t2);
    } else if n2.tag == IsBin(op) {
      m1, m2, u1, u2, news := CancelRight(op, n1, n2, count, t1, t2);
    } else {
      m1, m2, u1, u2, news := CancelLeaves(op, n1, n2, count, t1, t2);
    }
  }

  method CancelLeft(op: BinOp, n1: Node, n2: Node, count: Dups.Counter, ghost t1: Tree, ghost t2: Tree)
    returns (m1: Node, m2: Node, ghost u1: Tree, ghost u2: Tree, ghost news: set<Node>)
    requires Tidy(t1) && Holds(t1) && t1.node == n1 && Tidy(t2) && Holds(t2) && t2.node == n2
    requires Nodes(t1) !! Nodes(t2) && t1.Two? && t1.op == op
    modifies Nodes(t1), Nodes(t2), count
    ensures Tidy(u1) && Holds(u1) && u1.node == m1 && Tidy(u2) && Holds(u2) && u2.node == m2
    ensures Nodes(u1) !! Nodes(u2) && fresh(news) && Nodes(u1) <= Nodes(t1) + news && Nodes(u2) <= Nodes(t2) + news
    ensures (Value(u1), Value(u2)) == ElimEq(op, Value(t1), Value(t2)) && count.n >= old(count.n)
    decreases Size(Value(t1)) + Size(Value(t2)), 0, 0
  {
    hide ElimEq, ExprEq, Tidy, Holds, Nodes, Value, Size;
    ghost var a, b := t1.fst, t1.snd;
    Parts(t1);
    ElimEqLeft(op, Value(t1), Value(t2));
    ElimEqShrinks(op, Value(a), Value(t2));
    NodesAllocated(b);
    var l, f;
    ghost var ua, uf, news1;
    l, f, ua, uf, news1 := CancelOperands(op, n1.left, n2, count, a, t2);
    n1.left := l;
    NodesAllocated(ua);
    var r, g;
    ghost var ub, ug, news2;
    r, g, ub, ug, news2 := CancelOperands(op, n1.right, f, count, b, uf);
    n1.right := r;
    Assemble(n1, op, ua, ub);
    m1, m2, u1, u2 := n1, g, Two(n1, op, ua, ub), ug;
    news := news1 + news2;
  }

  method CancelRight(op: BinOp, n1: Node, n2: Node, count: Dups.Counter, ghost t1: Tree, ghost t2: Tree)
    returns (m1: Node, m2: Node, ghost u1: Tree, ghost u2: Tree, ghost news: set<Node>)
    requires Tidy(t1) && Holds(t1) && t1.node == n1 && Tidy(t2) && Holds(t2) && t2.node == n2
    requires Nodes(t1) !! Nodes(t2) && t2.Two? && t2.op == op && !IsOp(op, Value(t1))
    modifies Nodes(t1), Nodes(t2), count
    ensures Tidy(u1) && Holds(u1) && u1.node == m1 && Tidy(u2) && Holds(u2) && u2.node == m2
    ensures Nodes(u1) !! Nodes(u2) && fresh(news) && Nodes(u1) <= Nodes(t1) + news && Nodes(u2) <= Nodes(t2) + news
    ensures (Value(u1), Value(u2)) == ElimEq(op, Value(t1), Value(t2)) && count.n >= old(count.n)
    decreases Size(Value(t1)) + Size(Value(t2)), 0, 0
  {
    hide ElimEq, ExprEq, Tidy, Holds, Nodes, Value, Size;
    ghost var a, b := t2.fst, t2.snd;
    Parts(t2);
    ElimEqRight(op, Value(t1), Value(t2));
    ElimEqShrinks(op, Value(t1), Value(a));
    NodesAllocated(b);
    var l, f;
    ghost var ua, uf, news1;
    f, l, uf, ua, news1 := CancelOperands(op, n1, n2.left, count, t1, a);
    n2.left := l;
    NodesAllocated(ua);
    var r, g;
    ghost var ub, ug, news2;
    g, r, ug, ub, news2 := CancelOperands(op, f, n2.right, count, uf, b);
    n2.right := r;
    Assemble(n2, op, ua, ub);
    m1, m2, u1, u2 := g, n2, ug, Two(n2, op, ua, ub);
    news := news1 + news2;
  }

  /** Two operands: equal ones make way for the neutral operand. */
  method CancelLeaves(op: BinOp, n1: Node, n2: Node, count: Dups.Counter, ghost t1: Tree, ghost t2: Tree)
    returns (m1: Node, m2: Node, ghost u1: Tree, ghost u2: Tree, ghost news: set<Node>)
    requires Tidy(t1) && Holds(t1) && t1.node == n1 && Tidy(t2) && Holds(t2) && t2.node == n2
    requires Nodes(t1) !! Nodes(t2) && !IsOp(op, Value(t1)) && !IsOp(op, Value(t2))
    modifies count
    ensures Tidy(u1) && Holds(u1) && u1.node == m1 && Tidy(u2) && Holds(u2) && u2.node == m2
    ensures Nodes(u1) !! Nodes(u2) && fresh(news) && Nodes(u1) <= Nodes(t1) + news && Nodes(u2) <= Nodes(t2) + news
    ensures (Value(u1), Value(u2)) == ElimEq(op, Value(t1), Value(t2)) && count.n >= old(count.n)
    decreases Size(Value(t1)) + Size(Value(t2)), 3, 0
  {
    hide ElimEq, ExprEq;
    m1, m2, u1, u2, news := n1, n2, t1, t2, {};
    ElimEqLeaves(op, Value(t1), Value(t2));
    LeafValue(t1, SYM_YES);
    LeafValue(t1, SYM_NO);
    LeafValue(t2, SYM_YES);
    LeafValue(t2, SYM_NO);
    if n1.tag == n2.tag && (n1.tag == IsSym(SYM_YES) || n1.tag == IsSym(SYM_NO)) {
      return;
    }
    NodesAllocated(t1);
    NodesAllocated(t2);
    var same := AreEqual(n1, n2, count, t1, t2);
    if same {
      count.n := count.n + 1;
      m1 := new Node(IsSym(NeutralSym(op)), null, null);
      m2 := new Node(IsSym(NeutralSym(op)), null, null);
      news := {m1, m2};
      u1, u2 := Leaf(m1, IsSym(NeutralSym(op))), Leaf(m2, IsSym(NeutralSym(op)));
    }
  }

  lemma EliminateEqSteps(e1: Expr, e2: Expr)
    ensures
      var (a, b) := if e1.Bin? then ElimEq(e1.op, e1, e2) else (e1, e2);
      var (c, d) := if b.Bin? && !IsOp(b.op, a) then ElimEq(b.op, a, b) else (a, b);
      EliminateEq(e1, e2) == (ElimYn(c), ElimYn(d))
  {
  }

  lemma RootOp(t: Tree)
    requires Tidy(t) && Holds(t)
    ensures t.node.tag.IsBin? <==> Value(t).Bin?
    ensures t.node.tag.IsBin? ==> Value(t).op == t.node.tag.op
  {
  }

  /** Removes the operands common to both expressions, at one level of && or ||. */
  method CancelCommon(n1: Node, n2: Node, count: Dups.Counter, ghost t1: Tree, ghost t2: Tree)
    returns (m1: Node, m2: Node, ghost u1: Tree, ghost u2: Tree)
    requires Tidy(t1) && Holds(t1) && t1.node == n1 && Tidy(t2) && Holds(t2) && t2.node == n2
    requires Nodes(t1) !! Nodes(t2)
    modifies Nodes(t1), Nodes(t2), count
    ensures Tidy(u1) && Holds(u1) && u1.node == m1 && Tidy(u2) && Holds(u2) && u2.node == m2
    ensures Nodes(u1) !! Nodes(u2)
    ensures (Value(u1), Value(u2)) == EliminateEq(Value(t1), Value(t2)) && count.n >= old(count.n)
    decreases Size(Value(t1)) + Size(Value(t2)), 1, 0
  {
    hide ElimEq, ExprEq, EliminateEq, ElimYn, Tidy, Holds, Nodes, Value, Size;
    EliminateEqSteps(Value(t1), Value(t2));
    RootOp(t1);
    RootOp(t2);
    m1, m2, u1, u2 := n1, n2, t1, t2;
    ghost var news;
    if m1.tag.IsBin? {
      ElimEqShrinks(m1.tag.op, Value(t1), Value(t2));
      m1, m2, u1, u2, news := CancelOperands(m1.tag.op, m1, m2, count, u1, u2);
    }
    RootOp(u1);
    RootOp(u2);
    ghost var v1, v2 := u1, u2;
    if m1.tag != m2.tag && m2.tag.IsBin? {
      m1, m2, u1, u2, news := CancelOperands(m2.tag.op, m1, m2, count, u1, u2);
    }
    NodesAllocated(u2);
    u1 := EliminateYn(m1, u1);
    NodesAllocated(u1);
    u2 := EliminateYn(m2, u2);
  }

  /** Whether two expressions are equal after cancelling copies of them. */
  method AreEqual(n1: Node, n2: Node, count: Dups.Counter, ghost t1: Tree, ghost t2: Tree) returns (same: bool)
    requires Tidy(t1) && Holds(t1) && t1.node == n1 && Tidy(t2) && Holds(t2) && t2.node == n2
    modifies count
    ensures same == ExprEq(Value(t1), Value(t2)) && count.n == old(count.n)
    decreases Size(Value(t1)) + Size(Value(t2)), 2, 1
  {
    hide EliminateEq;
    match n1.tag {
      case IsSym(_) => same := n1.tag == n2.tag;
      case IsComp(_, _, _) => same := n1.tag == n2.tag;
      case IsNot =>
        if n2.tag != IsNot {
          return false;
        }
        same := AreEqual(n1.left, n2.left, count, t1.arg, t2.arg);
      case IsBin(op) =>
        if n2.tag != IsBin(op) {
          return false;
        }
        same := CancelCopies(n1, n2, count, t1, t2);
    }
  }

  method CancelCopies(n1: Node, n2: Node, count: Dups.Counter, ghost t1: Tree, ghost t2: Tree) returns (same: bool)
    requires Tidy(t1) && Holds(t1) && t1.node == n1 && Tidy(t2) && Holds(t2) && t2.node == n2
    modifies count
    ensures
      var (a, b) := EliminateEq(Value(t1), Value(t2));
      same <==> a.Symbol? && a == b
    ensures count.n == old(count.n)
    decreases Size(Value(t1)) + Size(Value(t2)), 2, 0
  {
    hide EliminateEq, Size;
    NodesAllocated(t2);
    var c1, d1 := Copy(n1, t1);
    NodesAllocated(d1);
    var c2, d2 := Copy(n2, t2);
    var oldCount := count.n;
    var m1, m2, u1, u2 := CancelCommon(c1, c2, count, d1, d2);
    same := m1.tag.IsSym? && m1.tag == m2.tag;
    count.n := oldCount;
  }

  // ---------- Normalising ----------

  lemma OnePart(t: Tree)
    requires t.One? && Tidy(t) && Holds(t)
    ensures
      var n, a := t.node, t.arg;
      && Tidy(a) && Holds(a) && n.left == a.node && n.tag == IsNot
      && Nodes(t) == {n} + Nodes(a) && n !in Nodes(a) && Value(t) == Not(Value(a))
      && OpCount(Value(t)) == OpCount(Value(a)) && LeadingNots(Value(t)) == 1 + LeadingNots(Value(a))
  {
  }

  lemma AssembleOne(n: Node, a: Tree)
    requires Tidy(a) && Holds(a) && n.left == a.node && n.tag == IsNot && n !in Nodes(a)
    ensures Tidy(One(n, a)) && Holds(One(n, a)) && Nodes(One(n, a)) == {n} + Nodes(a) && Value(One(n, a)) == Not(Value(a))
  {
  }

  lemma TransformBin(op: BinOp, a: Expr, b: Expr)
    ensures Transform(Bin(op, a, b)) == Bin(op, Transform(a), Transform(b))
    ensures OpCount(a) < OpCount(Bin(op, a, b)) && OpCount(b) < OpCount(Bin(op, a, b))
  {
  }

  /** A negation whose operand `a` is done. */
  ghost function Negated(a: Expr): Expr
    requires Normal(a)
  {
    match a
    case Not(x) => Transform(x)
    case Comp(rel, l, r) => Comp(FlipRel(rel), l, r)
    case Bin(op, x, y) => Transform(Bin(Dual(op), Not(x), Not(y)))
    case Symbol(s) =>
      if s == SYM_YES then EXPR_NO else if s == SYM_MOD then Symbol(SYM_MOD) else if s == SYM_NO then EXPR_YES else Not(a)
  }

  lemma TransformNot(a: Expr)
    ensures Transform(Not(a)) == Negated(Transform(a)) && OpCount(Transform(a)) == OpCount(a) && Normal(Transform(a))
  {
  }

  /** Pushes ! down to symbols, overwriting nodes; returns the new root. */
  method TransformNodes(n: Node, ghost t: Tree) returns (m: Node, ghost u: Tree, ghost news: set<Node>)
    requires Tidy(t) && Holds(t) && t.node == n
    modifies Nodes(t)
    ensures Tidy(u) && Holds(u) && u.node == m && fresh(news) && Nodes(u) <= Nodes(t) + news
    ensures Value(u) == Transform(Value(t))
    decreases OpCount(Value(t)), LeadingNots(Value(t)), 3
  {
    hide Transform, OpCount, LeadingNots;
    m, u, news := n, t, {};
    match n.tag {
      case IsSym(_) => SymbolStays(t);
      case IsComp(_, _, _) => u, news := TransformComparison(n, t);
      case IsBin(_) => u, news := TransformOperands(n, t);
      case IsNot => m, u, news := TransformNegation(n, t);
    }
  }

  lemma SymbolStays(t: Tree)
    requires Tidy(t) && Holds(t) && t.node.tag.IsSym?
    ensures Transform(Value(t)) == Value(t)
  {
  }

  /** A comparison of a bool symbol with a constant. */
  method TransformComparison(n: Node, ghost t: Tree) returns (ghost u: Tree, ghost news: set<Node>)
    requires Tidy(t) && Holds(t) && t.node == n && n.tag.IsComp?
    modifies n
    ensures Tidy(u) && Holds(u) && u.node == n && fresh(news) && Nodes(u) <= {n} + news
    ensures Value(u) == Transform(Value(t))
  {
    var rel, l, r := n.tag.rel, n.tag.l, n.tag.r;
    u, news := t, {};
    if l.kind.Boolean? && (rel.Eq? || rel.Ne?) && IsTriConst(r) {
      if r == SYM_MOD {
        n.tag := IsSym(if rel.Eq? then SYM_NO else SYM_YES);
        u := Leaf(n, n.tag);
      } else if rel.Eq? == (r == SYM_YES) {
        n.tag := IsSym(l);
        u := Leaf(n, n.tag);
      } else {
        var leaf := new Node(IsSym(l), null, null);
        n.tag, n.left := IsNot, leaf;
        u, news := One(n, Leaf(leaf, IsSym(l))), {leaf};
      }
    }
  }

  method TransformOperands(n: Node, ghost t: Tree) returns (ghost u: Tree, ghost news: set<Node>)
    requires Tidy(t) && Holds(t) && t.node == n && n.tag.IsBin?
    modifies Nodes(t)
    ensures Tidy(u) && Holds(u) && u.node == n && fresh(news) && Nodes(u) <= Nodes(t) + news
    ensures Value(u) == Transform(Value(t))
    decreases OpCount(Value(t)), LeadingNots(Value(t)), 2
  {
    hide Transform, OpCount, LeadingNots, Tidy, Holds, Nodes, Value;
    IsTwo(t);
    Parts(t);
    var op := n.tag.op;
    TransformBin(op, Value(t.fst), Value(t.snd));
    NodesAllocated(t.snd);
    var l, r;
    ghost var a, b, news1, news2;
    l, a, news1 := TransformNodes(n.left, t.fst);
    n.left := l;
    NodesAllocated(a);
    r, b, news2 := TransformNodes(n.right, t.snd);
    n.right := r;
    Assemble(n, op, a, b);
    u, news := Two(n, op, a, b), news1 + news2;
  }

  method TransformNegation(n: Node, ghost t: Tree) returns (m: Node, ghost u: Tree, ghost news: set<Node>)
    requires Tidy(t) && Holds(t) && t.node == n && n.tag.IsNot?
    modifies Nodes(t)
    ensures Tidy(u) && Holds(u) && u.node == m && fresh(news) && Nodes(u) <= Nodes(t) + news
    ensures Value(u) == Transform(Value(t))
    decreases OpCount(Value(t)), LeadingNots(Value(t)), 2
  {
    hide Transform, OpCount, LeadingNots, Tidy, Holds, Nodes, Value, Negated;
    assert t.One? by { IsOne(t); }
    OnePart(t);
    TransformNot(Value(t.arg));
    var l;
    ghost var a, news1, news2;
    l, a, news1 := TransformNodes(n.left, t.arg);
    n.left := l;
    AssembleOne(n, a);
    OnePart(One(n, a));
    m, u, news2 := Negate(n, One(n, a));
    news := news1 + news2;
  }

  lemma IsOne(t: Tree)
    requires Tidy(t) && Holds(t) && t.node.tag.IsNot?
    ensures t.One?
  {
  }

  lemma NegatedNot(x: Expr)
    requires Normal(Not(x))
    ensures Negated(Not(x)) == Transform(x) && OpCount(x) == OpCount(Not(Not(x))) && LeadingNots(x) == 0
  {
  }

  lemma NegatedBin(op: BinOp, x: Expr, y: Expr)
    requires Normal(Bin(op, x, y))
    ensures
      var d := Bin(Dual(op), Not(x), Not(y));
      Negated(Bin(op, x, y)) == Transform(d) && OpCount(d) == OpCount(Not(Bin(op, x, y))) && LeadingNots(d) == 0
  {
    assert OpCount(Not(x)) == OpCount(x) && OpCount(Not(y)) == OpCount(y);
  }

  /** A negation whose operand is done. */
  method Negate(n: Node, ghost t: Tree) returns (m: Node, ghost u: Tree, ghost news: set<Node>)
    requires Tidy(t) && Holds(t) && t.One? && t.node == n && Normal(Value(t.arg))
    modifies Nodes(t)
    ensures Tidy(u) && Holds(u) && u.node == m && fresh(news) && Nodes(u) <= Nodes(t) + news
    ensures Value(u) == Negated(Value(t.arg))
    decreases OpCount(Value(t)), 0, 5
  {
    hide Transform, OpCount, LeadingNots, Negated;
    ghost var a := t.arg;
    var tmp := n.left;
    if tmp.tag.IsNot? {
      NegatedNot(Value(a.arg));
      m, u, news := TransformNodes(tmp.left, a.arg);
    } else if tmp.tag.IsBin? {
      m, u, news := DeMorgan(n, t);
    } else {
      m, u := NegateLeaf(n, t);
      news := {};
    }
  }

  /** !(a || b) becomes !a && !b, and the reverse, which is transformed again. */
  method DeMorgan(n: Node, ghost t: Tree) returns (m: Node, ghost u: Tree, ghost news: set<Node>)
    requires Tidy(t) && Holds(t) && t.One? && t.node == n && t.arg.Two? && Normal(Value(t.arg))
    modifies Nodes(t)
    ensures Tidy(u) && Holds(u) && u.node == m && fresh(news) && Nodes(u) <= Nodes(t) + news
    ensures Value(u) == Negated(Value(t.arg))
    decreases OpCount(Value(t)), 0, 4
  {
    hide Transform, OpCount, LeadingNots, Negated, Tidy, Holds, Nodes, Value;
    OnePart(t);
    ghost var a, b := t.arg.fst, t.arg.snd;
    Parts(t.arg);
    NegatedBin(t.arg.op, Value(a), Value(b));
    NodesAllocated(t);
    NodesAllocated(a);
    NodesAllocated(b);
    var tmp := n.left;
    var right := new Node(IsNot, tmp.right, null);
    n.tag, n.right := IsBin(Dual(tmp.tag.op)), right;
    tmp.tag, tmp.right := IsNot, null;
    AssembleOne(tmp, a);
    AssembleOne(right, b);
    ghost var d := Two(n, n.tag.op, One(tmp, a), One(right, b));
    Assemble(n, n.tag.op, d.fst, d.snd);
    m, u, news := TransformNodes(n, d);
    news := news + {right};
  }

  /** A negated symbol or comparison. */
  method NegateLeaf(n: Node, ghost t: Tree) returns (m: Node, ghost u: Tree)
    requires Tidy(t) && Holds(t) && t.One? && t.node == n && t.arg.Leaf? && Normal(Value(t.arg))
    modifies Nodes(t)
    ensures Tidy(u) && Holds(u) && u.node == m && Nodes(u) <= Nodes(t) && Value(u) == Negated(Value(t.arg))
  {
    var tmp := n.left;
    m, u := n, t;
    if tmp.tag.IsComp? {
      tmp.tag := IsComp(FlipRel(tmp.tag.rel), tmp.tag.l, tmp.tag.r);
      m, u := tmp, Leaf(tmp, tmp.tag);
    } else if IsTriConst(tmp.tag.sym) {
      tmp.tag := IsSym(if tmp.tag.sym == SYM_YES then SYM_NO else if tmp.tag.sym == SYM_NO then SYM_YES else SYM_MOD);
      m, u := tmp, Leaf(tmp, tmp.tag);
    }
  }
}
