/** The side conditions of the simplifier can be met, each is needed, and where
    one fails it is said exactly when. */
module SideConditions {
  import opened Options
  import opened Tristates
  import opened Exprs
  import opened Equality
  import opened Joining
  import opened Transforming
  import opened Operands
  import opened Dedup
  import opened Dependencies
  import opened Calculation

  const A := Sym(3, TristateKind, false)
  const ONE := Sym(3, Unknown, true)

  /** The constant number 3 is spelled "1". */
  function SampleText(s: Sym): string {
    if s.id == 3 then "1" else if s.id <= 2 then TriText(s.id) else "x"
  }

  function SampleNumber(s: Sym): Option<int> {
    if s.id == 3 then Some(1) else None
  }

  /** One tristate symbol that is always visible. */
  ghost function SampleConfig(): Config {
    Config(map[A := SymInfo([None], None, None, None, [], Plain)], (s: Sym) => SampleText(s), (s: Sym) => SampleNumber(s),
           YES, (s: Sym) => var v: Tristate := NO; v)
  }

  /** The symbol has the value `t`. */
  ghost function SampleEnv(t: Tristate): Env {
    var tri: Sym -> Tristate := (s: Sym) => var v: Tristate := if s == A then t else FixedValue(s); v;
    Env(tri, (l: Sym, r: Sym) => Compare(SampleConfig(), l, r, tri(l), tri(r)))
  }

  /** The user's value `t` is calculated, so it is an admissible assignment, even
      with a constant that spells a number. */
  lemma SampleIsAdmissible(t: Tristate)
    ensures Admissible(SampleEnv(t)) && Solves(SampleConfig(), User(map[A := t], {A}, map[]), SampleEnv(t))
  {
    SampleIsSolved(t);
    SampleIsWellFormed();
    hide *;
    SolutionIsAdmissible(SampleConfig(), User(map[A := t], {A}, map[]), SampleEnv(t));
  }

  lemma SampleIsWellFormed()
    ensures WellFormed(SampleConfig())
  {
  }

  lemma SampleIsSolved(t: Tristate)
    ensures Solves(SampleConfig(), User(map[A := t], {A}, map[]), SampleEnv(t))
  {
    hide Compare;
    var user, env := User(map[A := t], {A}, map[]), SampleEnv(t);
    assert SampleConfig().info[A].prompts[1..] == [];
    assert MaxVisible(SampleConfig().info[A].prompts, false, env) == YES;
  }

  // ---------- Constants that spell numbers ----------

  /** Comparisons are those of the values. */
  ghost predicate ComparesValues(cfg: Config, env: Env) {
    forall l: Sym, r: Sym :: env.cmp(l, r) == Compare(cfg, l, r, env.tri(l), env.tri(r))
  }

  /** Every symbol has the value `t`. */
  ghost function ConstantEnv(cfg: Config, t: Tristate): (env: Env)
    ensures ComparesValues(cfg, env) && forall s: Sym :: env.tri(s) == t
  {
    var tri: Sym -> Tristate := (s: Sym) => var v: Tristate := t; v;
    Env(tri, (l: Sym, r: Sym) => Compare(cfg, l, r, tri(l), tri(r)))
  }

  /** Joining s="b" && s!="c" to s="b" is right exactly if no value of a tristate
      symbol equals both constants. */
  lemma JoinRightExactly(cfg: Config, s: Sym, b: Sym, c: Sym)
    requires b != c && JoinAnd(Comp(Eq, s, b), Comp(Ne, s, c)).Some?
    ensures
      var e1, e2 := Comp(Eq, s, b), Comp(Ne, s, c);
      (forall env: Env :: ComparesValues(cfg, env) ==> Eval(JoinAnd(e1, e2).value, env) == Apply(AndOp, Eval(e1, env), Eval(e2, env)))
      <==> forall t: Tristate :: !(Matches(cfg, b, t) && Matches(cfg, c, t))
  {
    var e1, e2 := Comp(Eq, s, b), Comp(Ne, s, c);
    assert JoinAnd(e1, e2) == Some(e1) && s.kind.TristateKind? && IsConst(b) && IsConst(c);
    forall env: Env | ComparesValues(cfg, env)
      ensures env.cmp(s, b) == 0 <==> Matches(cfg, b, env.tri(s))
      ensures env.cmp(s, c) == 0 <==> Matches(cfg, c, env.tri(s))
    {
      StrCmpZero(TriText(env.tri(s)), cfg.text(b));
      StrCmpZero(TriText(env.tri(s)), cfg.text(c));
    }
    forall t: Tristate | Matches(cfg, b, t) && Matches(cfg, c, t)
      ensures var env := ConstantEnv(cfg, t); Eval(e1, env) != Apply(AndOp, Eval(e1, env), Eval(e2, env))
    {
      assert ConstantEnv(cfg, t).tri(s) == t;
    }
  }

  /** A case where it is wrong: A="1" && A!=m is joined to A="1", but A="1" holds
      of A=m by number while A=m holds by text. */
  lemma NumberedConstantBreaksJoin()
    ensures
      var e1, e2 := Comp(Eq, A, ONE), Comp(Ne, A, SYM_MOD);
      var env := SampleEnv(MOD);
      && Admissible(env) && JoinAnd(e1, e2) == Some(e1)
      && Eval(e1, env) == YES
      && Apply(AndOp, Eval(e1, env), Eval(e2, env)) == NO
  {
    SampleIsAdmissible(MOD);
    StrCmpZero("m", "m");
  }

  // ---------- Normal form and m ----------

  /** Below `!`, A!=n may not become A: with A=m the value changes from n to m. */
  lemma TransBoolNeedsNormal()
    ensures
      var e := Not(Comp(Ne, A, SYM_NO));
      var env := SampleEnv(MOD);
      && Admissible(env) && !Normal(e)
      && Eval(e, env) == NO && Eval(TransBool(e), env) == MOD
  {
    SampleIsAdmissible(MOD);
    assert SampleEnv(MOD).tri(SYM_NO) == NO;
  }

  /** `!A` is m when A is m, yet "!A is not n" is answered with A=n. */
  lemma TransCompareIgnoresMod()
    ensures
      var e := Not(Symbol(A));
      var env := SampleEnv(MOD);
      && Admissible(env)
      && Eval(e, env) != NO && Eval(TransCompare(e, Ne, SYM_NO), env) == NO
  {
    SampleIsAdmissible(MOD);
    assert SampleEnv(MOD).tri(SYM_NO) == NO;
  }

  // ---------- The superset test and m ----------

  const Q := Sym(4, TristateKind, false)
  const S := Sym(5, TristateKind, false)

  /** The visibility of `S`. */
  function HiddenBy(): Expr {
    Comp(Eq, A, SYM_NO)
  }

  /** The dependency of an entry after `S`. */
  function EntryBelow(): Expr {
    Bin(AndOp, Bin(OrOp, Symbol(S), Symbol(Q)), Not(Symbol(A)))
  }

  function HiddenConfig(): Config {
    Simple(map[A := SymInfo([None], None, None, None, [], Plain), Q := SymInfo([None], None, None, None, [], Plain),
               S := SymInfo([Some(HiddenBy())], None, None, None, [], Plain)], Unseen)
  }

  function HiddenUser(): User {
    User(map[A := MOD, Q := YES], {A, Q}, map[])
  }

  /** A is m, Q is y and S is n. */
  ghost function HiddenEnv(): Env {
    var tri: Sym -> Tristate := (s: Sym) => var v: Tristate := if s == A then MOD else if s == Q then YES else FixedValue(s); v;
    Env(tri, (l: Sym, r: Sym) => Compare(HiddenConfig(), l, r, tri(l), tri(r)))
  }

  lemma HiddenIsWellFormed()
    ensures WellFormed(HiddenConfig())
  {
    PlainIsWellFormed(HiddenConfig().info, Unseen);
    hide WellFormed;
  }

  lemma HiddenValue()
    ensures Eval(HiddenBy(), HiddenEnv()) == NO
  {
    StrCmpZero("m", "n");
    assert HiddenEnv().cmp(A, SYM_NO) == StrCmp("m", "n");
  }

  lemma HiddenSteps()
    ensures
      var cfg, user, env := HiddenConfig(), HiddenUser(), HiddenEnv();
      Step(cfg, user, A, env).curr == MOD && Step(cfg, user, Q, env).curr == YES && Step(cfg, user, S, env).curr == NO
  {
    var cfg, env := HiddenConfig(), HiddenEnv();
    HiddenValue();
    OnePrompt(cfg, A, env);
    OnePrompt(cfg, Q, env);
    OnePrompt(cfg, S, env);
    hide Visibility, HiddenEnv;
  }

  lemma HiddenIsSolved()
    ensures Solves(HiddenConfig(), HiddenUser(), HiddenEnv())
  {
    HiddenSteps();
    hide Step, Compare;
  }

  /** Its test. */
  function EitherTest(): Expr {
    Bin(OrOp, Comp(Ne, S, SYM_NO), Comp(Ne, Q, SYM_NO))
  }

  function BelowTest(): Expr {
    Bin(AndOp, EitherTest(), HiddenBy())
  }

  lemma HiddenTransformed()
    ensures Transform(TransCompareOpt(Some(HiddenBy()), Ne, SYM_NO)) == HiddenBy()
    ensures Transform(TransCompareOpt(Some(EntryBelow()), Ne, SYM_NO)) == BelowTest()
  {
    var x, y := TransCompare(Bin(OrOp, Symbol(S), Symbol(Q)), Eq, SYM_NO), TransCompare(Not(Symbol(A)), Eq, SYM_NO);
    assert TransCompare(EntryBelow(), Ne, SYM_NO) == Not(Bin(OrOp, x, y));
    assert Transform(Not(x)) == EitherTest();
    assert Transform(Not(Bin(OrOp, x, y))) == BelowTest();
  }

  lemma HiddenDeduped()
    ensures Deduped(HiddenBy()) && Deduped(BelowTest())
  {
    assert OperandsOf(OrOp, EitherTest()) == [EitherTest().fst, EitherTest().snd];
    assert OperandsOf(AndOp, BelowTest()) == [EitherTest(), HiddenBy()];
    assert Deduped(EitherTest());
  }

  lemma HiddenTests()
    ensures TestOf(Some(HiddenBy())) == HiddenBy() && TestOf(Some(EntryBelow())) == BelowTest()
  {
    HiddenTransformed();
    HiddenDeduped();
    hide Transform, TransCompareOpt, Deduped, HiddenBy, EntryBelow, BelowTest;
    DeduplicatedFixes(BelowTest());
    DeduplicatedFixes(HiddenBy());
  }

  lemma HiddenPasses()
    ensures Passes(Some(EntryBelow()), Some(HiddenBy()))
  {
    HiddenTests();
    hide TestOf, Deduplicated, Transform;
    assert ElimEq(AndOp, EitherTest(), HiddenBy()) == (EitherTest(), HiddenBy());
    assert ElimEq(AndOp, BelowTest(), HiddenBy()) == (Bin(AndOp, EitherTest(), EXPR_YES), EXPR_YES);
  }

  lemma HiddenEntry()
    ensures Eval(EntryBelow(), HiddenEnv()) == MOD
    ensures ContainsSymbol(EntryBelow(), S) && !DependsOnSymbol(EntryBelow(), S)
  {
    assert HiddenEnv().tri(A) == MOD && HiddenEnv().tri(Q) == YES && HiddenEnv().tri(S) == NO;
  }

  /** So an entry can move below a symbol by the superset test and yet be reachable
      where the symbol is not visible: with A=m and Q=y the dependency
      (S || Q) && !A is m, and the visibility A=n of S is n. */
  lemma PassingMayBeReachable()
    ensures
      var dep, vis, env := EntryBelow(), HiddenBy(), HiddenEnv();
      && Solves(HiddenConfig(), HiddenUser(), env) && HiddenConfig().info[S].prompts == [Some(vis)]
      && ContainsSymbol(dep, S) && !DependsOnSymbol(dep, S) && Passes(Some(dep), Some(vis))
      && Eval(dep, env) == MOD && Eval(vis, env) == NO
  {
    HiddenIsSolved();
    HiddenValue();
    HiddenPasses();
    HiddenEntry();
    hide Solves, Passes, HiddenEnv, HiddenBy, EntryBelow, Eval;
  }
}
