/** How expressions are printed, and that what is printed can be read in one way
    only. */
module Printer {
  import opened Options
  import opened Tristates
  import opened Exprs

  /** What the printer hands out, a piece at a time. Symbols have different
      names, so a name stands for its symbol. */
  datatype Token = Name(sym: Sym) | Relation(rel: Rel) | Bang | Operator(op: BinOp) | Open | Close

  datatype ExprType = NoType | OrType | AndType | NotType | CompType(rel: Rel) | ListType | SymbolType

  function BinType(op: BinOp): ExprType {
    if op.OrOp? then OrType else AndType
  }

  function TypeOf(e: Expr): ExprType {
    match e
    case Symbol(_) => SymbolType
    case Comp(rel, _, _) => CompType(rel)
    case Not(_) => NotType
    case Bin(op, _, _) => BinType(op)
  }

  /** Positive if `t1` binds tighter than `t2`. Each test also applies to the
      types listed before it. */
  function CompareType(t1: ExprType, t2: ExprType): int {
    if t1 == t2 then 0
    else
      var order := t1.CompType? && t1.rel != Eq && t1.rel != Ne;
      var equal := t1.CompType?;
      var negation := equal || t1.NotType?;
      var conjunction := negation || t1.AndType?;
      var disjunction := conjunction || t1.OrType?;
      var list := disjunction || t1.ListType?;
      if order && t2.CompType? && (t2.rel == Eq || t2.rel == Ne) then 1
      else if equal && t2.NotType? then 1
      else if negation && t2.AndType? then 1
      else if conjunction && t2.OrType? then 1
      else if disjunction && t2.ListType? then 1
      else if list && t2.NoType? then 1
      else -1
  }

  /** Operands of && and || stand in parentheses only where the outer operator
      binds tighter. */
  predicate Parenthesised(prev: ExprType, e: Expr) {
    CompareType(prev, TypeOf(e)) > 0
  }

  function Print(e: Expr, prev: ExprType): seq<Token> {
    var text := match e
      case Symbol(s) => [Name(s)]
      case Comp(rel, l, r) => [Name(l), Relation(rel), Name(r)]
      case Not(a) => [Bang] + Print(a, NotType)
      case Bin(op, a, b) => Print(a, BinType(op)) + [Operator(op)] + Print(b, BinType(op));
    if Parenthesised(prev, e) then [Open] + text + [Close] else text
  }

  /** A missing expression is printed as the constant y. */
  function PrintOpt(e: Option<Expr>): seq<Token> {
    if e.None? then [Name(SYM_YES)] else Print(e.value, NoType)
  }

  // ---------- Reading ----------

  datatype Parse = Failed | Parsed(e: Expr, rest: seq<Token>)

  /** A symbol, a comparison, a negation or a text in parentheses. */
  function ParseUnit(t: seq<Token>): (p: Parse)
    ensures p.Parsed? ==> |p.rest| < |t|
    decreases |t|, 0
  {
    if t == [] then Failed
    else match t[0]
      case Name(s) =>
        if |t| >= 3 && t[1].Relation? && t[2].Name? then Parsed(Comp(t[1].rel, s, t[2].sym), t[3..])
        else Parsed(Symbol(s), t[1..])
      case Bang =>
        var p := ParseUnit(t[1..]);
        if p.Failed? then Failed else Parsed(Not(p.e), p.rest)
      case Open =>
        var p := ParseText(t[1..]);
        if p.Failed? || p.rest == [] || !p.rest[0].Close? then Failed else Parsed(p.e, p.rest[1..])
      case _ => Failed
  }

  /** The operands of `op`: && binds tighter than ||. */
  function ParseOperand(op: BinOp, t: seq<Token>): (p: Parse)
    ensures p.Parsed? ==> |p.rest| < |t|
    decreases |t|, if op.OrOp? then 3 else 1
  {
    if op.OrOp? then ParseSome(AndOp, t) else ParseUnit(t)
  }

  /** A sequence of operands of `op`. */
  function ParseSome(op: BinOp, t: seq<Token>): (p: Parse)
    ensures p.Parsed? ==> |p.rest| < |t|
    decreases |t|, if op.OrOp? then 4 else 2
  {
    var p := ParseOperand(op, t);
    if p.Failed? then Failed else ParseMore(op, p.e, p.rest)
  }

  /** More operands; they associate to the left. */
  function ParseMore(op: BinOp, e: Expr, t: seq<Token>): (p: Parse)
    ensures p.Parsed? ==> |p.rest| <= |t|
    decreases |t|
  {
    if t == [] || t[0] != Operator(op) then Parsed(e, t)
    else
      var p := ParseOperand(op, t[1..]);
      if p.Failed? then Failed else ParseMore(op, Bin(op, e, p.e), p.rest)
  }

  function ParseText(t: seq<Token>): (p: Parse)
    ensures p.Parsed? ==> |p.rest| < |t|
    decreases |t|, 5
  {
    ParseSome(OrOp, t)
  }

  // ---------- Association ----------

  /** The operands of `b` after those of `a`, associated to the left. */
  function Append(op: BinOp, a: Expr, b: Expr): (e: Expr)
    ensures IsOp(op, e)
    decreases b
  {
    if IsOp(op, b) then Bin(op, Append(op, a, b.fst), b.snd) else Bin(op, a, b)
  }

  /** An expression with all of its && and || associated to the left. */
  function LeftAssociated(e: Expr): (r: Expr)
    ensures e.Bin? ==> IsOp(e.op, r)
    ensures !e.Bin? ==> !r.Bin?
  {
    match e
    case Symbol(_) => e
    case Comp(_, _, _) => e
    case Not(a) => Not(LeftAssociated(a))
    case Bin(op, a, b) => Append(op, LeftAssociated(a), LeftAssociated(b))
  }

  lemma {:induction false} AppendAssociates(op: BinOp, a: Expr, b: Expr, c: Expr)
    ensures Append(op, Append(op, a, b), c) == Append(op, a, Append(op, b, c))
    decreases c
  {
    if IsOp(op, c) {
      AppendAssociates(op, a, b, c.fst);
    }
  }

  lemma {:induction false} AppendKeepsValue(op: BinOp, a: Expr, b: Expr, env: Env)
    ensures Eval(Append(op, a, b), env) == Apply(op, Eval(a, env), Eval(b, env))
    decreases b
  {
    if IsOp(op, b) {
      AppendKeepsValue(op, a, b.fst, env);
    }
  }

  /** Association does not matter for the value. */
  lemma {:induction false} LeftAssociatedKeepsValue(e: Expr, env: Env)
    ensures Eval(LeftAssociated(e), env) == Eval(e, env)
  {
    match e
    case Symbol(_) =>
    case Comp(_, _, _) =>
    case Not(a) => LeftAssociatedKeepsValue(a, env);
    case Bin(op, a, b) =>
      LeftAssociatedKeepsValue(a, env);
      LeftAssociatedKeepsValue(b, env);
      AppendKeepsValue(op, LeftAssociated(a), LeftAssociated(b), env);
  }

  lemma {:induction false} PrintAppend(op: BinOp, a: Expr, b: Expr)
    ensures Print(Append(op, a, b), BinType(op)) == Print(a, BinType(op)) + [Operator(op)] + Print(b, BinType(op))
    decreases b
  {
    if IsOp(op, b) {
      PrintAppend(op, a, b.fst);
      var t := Print(a, BinType(op)) + [Operator(op)];
      var u := Print(b.fst, BinType(op));
      var v := [Operator(op)] + Print(b.snd, BinType(op));
      assert Print(Append(op, a, b), BinType(op)) == t + u + v;
      assert Print(b, BinType(op)) == u + v;
      assert t + u + v == t + (u + v);
    }
  }

  /** Association does not show in print. */
  lemma {:induction false} PrintLeftAssociated(e: Expr, prev: ExprType)
    ensures Print(LeftAssociated(e), prev) == Print(e, prev)
  {
    match e
    case Symbol(_) =>
    case Comp(_, _, _) =>
    case Not(a) => PrintLeftAssociated(a, NotType);
    case Bin(op, a, b) =>
      PrintLeftAssociated(a, BinType(op));
      PrintLeftAssociated(b, BinType(op));
      PrintAppend(op, LeftAssociated(a), LeftAssociated(b));
  }

  // ---------- Reading what is printed ----------

  /** The text does not continue a comparison. */
  predicate NoRelation(t: seq<Token>) {
    t != [] ==> !t[0].Relation?
  }

  /** What can follow an operand of `op`. */
  predicate Ends(op: BinOp, t: seq<Token>) {
    NoRelation(t) && (op.OrOp? ==> t != [] ==> t[0] != Operator(AndOp))
  }

  lemma MoreFirst(op: BinOp, e: Expr, t: seq<Token>)
    ensures t != [] && t[0] == Operator(op) ==>
      var p := ParseOperand(op, t[1..]);
      ParseMore(op, e, t) == if p.Failed? then Failed else ParseMore(op, Bin(op, e, p.e), p.rest)
    ensures !(t != [] && t[0] == Operator(op)) ==> ParseMore(op, e, t) == Parsed(e, t)
  {
  }

  lemma Negated(text: seq<Token>)
    ensures
      var p := ParseUnit(text);
      ParseUnit([Bang] + text) == if p.Failed? then Failed else Parsed(Not(p.e), p.rest)
  {
    assert ([Bang] + text)[1..] == text;
  }

  lemma InParentheses(text: seq<Token>, e: Expr, t: seq<Token>)
    requires ParseText(text + ([Close] + t)) == Parsed(e, [Close] + t)
    ensures ParseUnit([Open] + text + [Close] + t) == Parsed(e, t)
  {
    hide ParseText;
    assert ([Open] + text + [Close] + t)[1..] == text + ([Close] + t);
    assert ([Close] + t)[1..] == t;
  }

  lemma Leaf(e: Expr, t: seq<Token>)
    requires NoRelation(t) && (e.Symbol? || e.Comp?)
    ensures ParseUnit(Print(e, NotType) + t) == Parsed(LeftAssociated(e), t)
  {
    if e.Symbol? {
      assert ([Name(e.sym)] + t)[1..] == t;
    } else {
      assert ([Name(e.left), Relation(e.rel), Name(e.right)] + t)[3..] == t;
    }
  }

  lemma PrintInNegation(e: Expr)
    ensures e.Not? ==> Print(e, NotType) == [Bang] + Print(e.arg, NotType)
    ensures e.Bin? ==> Print(e, NotType) == [Open] + Print(e, NoType) + [Close]
  {
  }

  lemma {:induction false} ReadUnit(e: Expr, t: seq<Token>)
    requires NoRelation(t)
    ensures ParseUnit(Print(e, NotType) + t) == Parsed(LeftAssociated(e), t)
    decreases e, if e.Bin? then 7 else 0
  {
    hide ParseUnit, ParseText, Print;
    PrintInNegation(e);
    match e
    case Symbol(s) => Leaf(e, t);
    case Comp(rel, l, r) => Leaf(e, t);
    case Not(a) =>
      ReadUnit(a, t);
      Negated(Print(a, NotType) + t);
      assert [Bang] + Print(a, NotType) + t == [Bang] + (Print(a, NotType) + t);
    case Bin(op, a, b) =>
      ReadText(e, [Close] + t);
      InParentheses(Print(e, NoType), LeftAssociated(e), t);
  }

  /** An expression that is no `op` itself, as an operand of `op`. */
  lemma {:induction false} ReadOperand(op: BinOp, e: Expr, t: seq<Token>)
    requires Ends(op, t) && !IsOp(op, e)
    ensures ParseOperand(op, Print(e, BinType(op)) + t) == Parsed(LeftAssociated(e), t)
    decreases e, if op.OrOp? then 4 else if e.Bin? then 8 else 2
  {
    if op.AndOp? {
      assert Print(e, BinType(op)) == Print(e, NotType);
      ReadUnit(e, t);
    } else {
      assert Print(e, BinType(op)) == Print(e, AndType);
      ReadSome(AndOp, e, t);
      MoreFirst(AndOp, LeftAssociated(e), t);
    }
  }

  /** The operands of `e` are read first. */
  lemma {:induction false} ReadSome(op: BinOp, e: Expr, t: seq<Token>)
    requires Ends(op, t)
    ensures ParseSome(op, Print(e, BinType(op)) + t) == ParseMore(op, LeftAssociated(e), t)
    decreases e, if op.OrOp? then 5 else if IsOp(OrOp, e) then 9 else 3
  {
    if IsOp(op, e) {
      var t' := [Operator(op)] + Print(e.snd, BinType(op)) + t;
      assert Print(e, BinType(op)) + t == Print(e.fst, BinType(op)) + t';
      ReadSome(op, e.fst, t');
      ReadMore(op, LeftAssociated(e.fst), e.snd, t);
    } else {
      ReadOperand(op, e, t);
    }
  }

  /** The operands of `e` are read after those of `acc`. */
  lemma {:induction false} ReadMore(op: BinOp, acc: Expr, e: Expr, t: seq<Token>)
    requires Ends(op, t)
    ensures ParseMore(op, acc, [Operator(op)] + Print(e, BinType(op)) + t)
         == ParseMore(op, Append(op, acc, LeftAssociated(e)), t)
    decreases e, if op.OrOp? then 5 else if IsOp(OrOp, e) then 9 else 3
  {
    var text := [Operator(op)] + Print(e, BinType(op)) + t;
    if IsOp(op, e) {
      var t' := [Operator(op)] + Print(e.snd, BinType(op)) + t;
      assert text == [Operator(op)] + Print(e.fst, BinType(op)) + t';
      ReadMore(op, acc, e.fst, t');
      ReadMore(op, Append(op, acc, LeftAssociated(e.fst)), e.snd, t);
      AppendAssociates(op, acc, LeftAssociated(e.fst), LeftAssociated(e.snd));
    } else {
      ReadOperand(op, e, t);
      assert text[1..] == Print(e, BinType(op)) + t;
      MoreFirst(op, acc, text);
    }
  }

  lemma {:induction false} ReadText(e: Expr, t: seq<Token>)
    requires Ends(OrOp, t) && (t != [] ==> t[0] != Operator(OrOp))
    ensures ParseText(Print(e, NoType) + t) == Parsed(LeftAssociated(e), t)
    decreases e, 6
  {
    assert Print(e, NoType) == Print(e, OrType);
    ReadSome(OrOp, e, t);
    MoreFirst(OrOp, LeftAssociated(e), t);
  }

  /** What is printed is read back as the same expression, associated to the
      left, which has the same value in every assignment. */
  lemma PrintedIsReadBack(e: Expr)
    ensures ParseText(Print(e, NoType)) == Parsed(LeftAssociated(e), [])
    ensures forall env :: Eval(LeftAssociated(e), env) == Eval(e, env)
  {
    ReadText(e, []);
    assert Print(e, NoType) + [] == Print(e, NoType);
    forall env ensures Eval(LeftAssociated(e), env) == Eval(e, env) {
      LeftAssociatedKeepsValue(e, env);
    }
  }

  /** Two expressions are printed alike exactly if they differ at most in how &&
      and || associate; so they have the same value. */
  lemma PrintIsUnambiguous(a: Expr, b: Expr)
    ensures Print(a, NoType) == Print(b, NoType) <==> LeftAssociated(a) == LeftAssociated(b)
    ensures Print(a, NoType) == Print(b, NoType) ==> forall env :: Eval(a, env) == Eval(b, env)
  {
    hide ParseText, Print, Eval;
    PrintedIsReadBack(a);
    PrintedIsReadBack(b);
    PrintLeftAssociated(a, NoType);
    PrintLeftAssociated(b, NoType);
  }

  /** A missing expression counts as y. */
  function OrYes(e: Option<Expr>): Expr {
    if e.None? then EXPR_YES else e.value
  }

  /** The same for expressions that may be missing, which are printed as y. */
  lemma PrintOptIsUnambiguous(a: Option<Expr>, b: Option<Expr>)
    ensures PrintOpt(a) == PrintOpt(b) <==> LeftAssociated(OrYes(a)) == LeftAssociated(OrYes(b))
    ensures PrintOpt(a) == PrintOpt(b) ==>
      forall env: Env :: env.tri(SYM_YES) == YES ==> EvalOpt(a, env) == EvalOpt(b, env)
  {
    PrintIsUnambiguous(OrYes(a), OrYes(b));
  }

  // ---------- What stands in the text ----------

  /** The symbols and operators from left to right. */
  function InOrder(e: Expr): seq<Token> {
    match e
    case Symbol(s) => [Name(s)]
    case Comp(rel, l, r) => [Name(l), Relation(rel), Name(r)]
    case Not(a) => [Bang] + InOrder(a)
    case Bin(op, a, b) => InOrder(a) + [Operator(op)] + InOrder(b)
  }

  function WithoutParentheses(t: seq<Token>): seq<Token> {
    if t == [] then []
    else (if t[0] == Open || t[0] == Close then [] else [t[0]]) + WithoutParentheses(t[1..])
  }

  function Opened(t: seq<Token>): nat {
    if t == [] then 0 else (if t[0] == Open then 1 else 0) + Opened(t[1..])
  }

  /** The places where one operator does not bind as tightly as the one around it: &&
      and || below `!`, and || below &&. */
  function Looser(e: Expr): nat {
    match e
    case Symbol(_) => 0
    case Comp(_, _, _) => 0
    case Not(a) => (if a.Bin? then 1 else 0) + Looser(a)
    case Bin(op, a, b) =>
      (if op.AndOp? && IsOp(OrOp, a) then 1 else 0) + (if op.AndOp? && IsOp(OrOp, b) then 1 else 0) + Looser(a) + Looser(b)
  }

  lemma {:induction false} TextAppend(a: seq<Token>, b: seq<Token>)
    ensures WithoutParentheses(a + b) == WithoutParentheses(a) + WithoutParentheses(b)
    ensures Opened(a + b) == Opened(a) + Opened(b)
  {
    if a == [] {
      assert a + b == b;
    } else {
      assert (a + b)[1..] == a[1..] + b;
      TextAppend(a[1..], b);
    }
  }

  lemma TextAppendThree(a: seq<Token>, b: seq<Token>, c: seq<Token>)
    ensures WithoutParentheses(a + b + c) == WithoutParentheses(a) + WithoutParentheses(b) + WithoutParentheses(c)
    ensures Opened(a + b + c) == Opened(a) + Opened(b) + Opened(c)
  {
    TextAppend(a + b, c);
    TextAppend(a, b);
  }

  lemma PrintInside(e: Expr, prev: ExprType)
    requires prev.NoType? || prev.NotType? || prev.AndType? || prev.OrType?
    ensures
      var t := Print(e, prev);
      if (prev.NotType? && e.Bin?) || (prev.AndType? && IsOp(OrOp, e)) then
        WithoutParentheses(t) == WithoutParentheses(Print(e, NoType)) && Opened(t) == 1 + Opened(Print(e, NoType))
      else t == Print(e, NoType)
  {
    TextAppendThree([Open], Print(e, NoType), [Close]);
  }

  /** The printed text is the expression from left to right, with one pair of
      parentheses for every place where an operator binds less tightly than the one
      around it, and no other. */
  lemma {:induction false} PrintedInOrder(e: Expr)
    ensures WithoutParentheses(Print(e, NoType)) == InOrder(e) && Opened(Print(e, NoType)) == Looser(e)
  {
    PrintTop(e);
    hide Print, WithoutParentheses, Opened;
    match e
    case Symbol(s) => One(Name(s));
    case Comp(rel, l, r) =>
      One(Name(l));
      One(Relation(rel));
      One(Name(r));
      TextAppendThree([Name(l)], [Relation(rel)], [Name(r)]);
      assert [Name(l)] + [Relation(rel)] + [Name(r)] == [Name(l), Relation(rel), Name(r)];
    case Not(a) =>
      PrintedInOrder(a);
      PrintInside(a, NotType);
      One(Bang);
      TextAppend([Bang], Print(a, NotType));
    case Bin(op, a, b) =>
      PrintedInOrder(a);
      PrintedInOrder(b);
      PrintInside(a, BinType(op));
      PrintInside(b, BinType(op));
      One(Operator(op));
      TextAppendThree(Print(a, BinType(op)), [Operator(op)], Print(b, BinType(op)));
  }

  lemma One(t: Token)
    requires !t.Open? && !t.Close?
    ensures WithoutParentheses([t]) == [t] && Opened([t]) == 0
  {
  }

  lemma PrintTop(e: Expr)
    ensures Print(e, NoType) ==
      match e
      case Symbol(s) => [Name(s)]
      case Comp(rel, l, r) => [Name(l), Relation(rel), Name(r)]
      case Not(a) => [Bang] + Print(a, NotType)
      case Bin(op, a, b) => Print(a, BinType(op)) + [Operator(op)] + Print(b, BinType(op))
  {
  }
}
