/** Choices: of the members of a choice that is y, the one picked is y. */
module Choices {
  import opened Options
  import opened Tristates
  import opened Exprs
  import opened Calculation

  function Members(cfg: Config, c: Sym): seq<Sym>
    requires IsChoice(cfg, c)
  {
    cfg.info[c].role.members
  }

  lemma {:induction false} HiddenIsNotMod(prompts: seq<Option<Expr>>, env: Env)
    ensures MaxVisible(prompts, true, env) != MOD
  {
    if prompts != [] { HiddenIsNotMod(prompts[1..], env); }
  }

  lemma {:induction false} PromptsBounded(prompts: seq<Option<Expr>>, m: Sym, c: Sym, hidden: bool, env: Env)
    requires Admissible(env) && IsTriKind(c) && forall p :: p in prompts ==> MemberPrompt(p, m, c)
    ensures MaxVisible(prompts, hidden, env) <= env.tri(c)
    ensures c.kind.TristateKind? && !m.kind.TristateKind? && MaxVisible(prompts, hidden, env) != NO ==> env.tri(c) == YES
  {
    if prompts != [] {
      assert prompts[0] in prompts;
      BoundedValue(prompts[0].value, c, c.kind.TristateKind? && !m.kind.TristateKind?, env);
      PromptsBounded(prompts[1..], m, c, hidden, env);
    }
  }

  /** Members are never m while the choice is y, hidden while it is n, and only
      tristate ones show, as m, while it is m. */
  ghost predicate ShowsWith(cfg: Config, m: Sym, c: Sym, env: Env)
    requires m in cfg.info
  {
    var v := Visibility(cfg, m, env);
    && (env.tri(c) == YES ==> v != MOD)
    && (env.tri(c) == NO ==> v == NO)
    && (env.tri(c) == MOD ==> v != YES && (!m.kind.TristateKind? ==> v == NO))
  }

  lemma ShownWith(cfg: Config, m: Sym, c: Sym, env: Env)
    requires IsMemberOf(cfg, m, c) && IsTriKind(m) && IsTriKind(c)
    requires c.kind.Boolean? || cfg.modules == NO ==> env.tri(c) != MOD
    requires
      var v := MaxVisible(cfg.info[m].prompts, HidesMod(cfg, m, env), env);
      && v <= env.tri(c) && (c.kind.TristateKind? && !m.kind.TristateKind? && v != NO ==> env.tri(c) == YES)
      && (HidesMod(cfg, m, env) ==> v != MOD)
    ensures ShowsWith(cfg, m, c, env)
  {
    hide MaxVisible;
  }

  lemma MemberFacts(cfg: Config, m: Sym, c: Sym)
    requires WellFormed(cfg) && IsMemberOf(cfg, m, c)
    ensures m in cfg.info && c in cfg.info && IsChoice(cfg, c) && m in cfg.info[c].role.members
    ensures IsTriKind(c) && IsTriKind(m) && (!c.kind.TristateKind? ==> c.kind.Boolean?)
    ensures forall p :: p in cfg.info[m].prompts ==> MemberPrompt(p, m, c)
  {
  }

  lemma VisibleMember(cfg: Config, user: User, env: Env, m: Sym, c: Sym)
    requires WellFormed(cfg) && Solves(cfg, user, env) && IsMemberOf(cfg, m, c)
    ensures ShowsWith(cfg, m, c, env)
  {
    hide *;
    MemberFacts(cfg, m, c);
    SolutionIsAdmissible(cfg, user, env);
    if c.kind.Boolean? || cfg.modules == NO { NoModWithoutModules(cfg, user, env, c); }
    var hidden := HidesMod(cfg, m, env);
    PromptsBounded(cfg.info[m].prompts, m, c, hidden, env);
    HiddenIsNotMod(cfg.info[m].prompts, env);
    ShownWith(cfg, m, c, env);
  }

  /** Setting a symbol to the value it has. */
  lemma SetTriSame(cfg: Config, user: User, env: Env, c: Sym, syms: set<Sym>)
    requires Solves(cfg, user, env)
    ensures AgreeOn(SetTri(cfg, env, c, env.tri(c)), env, syms)
  {
  }

  lemma TargetIsMember(cfg: Config, user: User, env: Env, c: Sym, m: Sym)
    requires WellFormed(cfg) && Solves(cfg, user, env) && IsChoice(cfg, c) && env.tri(c) == YES && m in Members(cfg, c)
    ensures IsMemberOf(cfg, m, c) && TargetVisible(cfg, Members(cfg, c), m, SetTri(cfg, env, c, YES)) == Visibility(cfg, m, env)
  {
    SetTriSame(cfg, user, env, c, SymsOfPrompts(cfg.info[m].prompts));
    PromptsRead(cfg.info[m].prompts, HidesMod(cfg, m, env), SetTri(cfg, env, c, YES), env);
  }

  /** A choice that is y has exactly one member that is y, the one picked, and
      the others are n; none only if what is picked is no member. */
  lemma ExactlyOneIsYes(cfg: Config, user: User, env: Env, c: Sym)
    requires WellFormed(cfg) && Solves(cfg, user, env) && IsChoice(cfg, c) && env.tri(c) == YES
    ensures
      var pick := Step(cfg, user, c, env).pick;
      && pick.Some? && pick == Pick(cfg, user, c, env)
      && (pick.value in Members(cfg, c) ==> env.tri(pick.value) == YES)
      && forall m :: m in Members(cfg, c) && m != pick.value && (cfg.info[m].defaults == [] || Visibility(cfg, m, env) != NO) ==>
           env.tri(m) == NO
  {
    hide Base;
    var pick := ChoiceStep(cfg, user, c, env).pick;
    SolvedBy(cfg, user, env, c);
    assert ChoiceStep(cfg, user, c, env).curr == YES;
    forall m | m in Members(cfg, c)
      ensures TargetVisible(cfg, Members(cfg, c), m, SetTri(cfg, env, c, YES)) == Visibility(cfg, m, env)
      ensures Visibility(cfg, m, env) == YES ==> env.tri(m) == if pick == Some(m) then YES else NO
      ensures Visibility(cfg, m, env) != MOD
      ensures Visibility(cfg, m, env) == NO && cfg.info[m].defaults == [] ==> env.tri(m) == NO
    {
      TargetIsMember(cfg, user, env, c, m);
      VisibleMember(cfg, user, env, m, c);
      MemberValue(cfg, user, m, c, env);
    }
  }

  lemma MemberValue(cfg: Config, user: User, m: Sym, c: Sym, env: Env)
    requires IsMemberOf(cfg, m, c) && IsChoice(cfg, c)
    ensures
      var v, t := Visibility(cfg, m, env), Step(cfg, user, m, env).curr;
      && (v == YES ==> t == if ChoiceStep(cfg, user, c, env).pick == Some(m) then YES else NO)
      && (v == NO && cfg.info[m].defaults == [] ==> t == NO)
      && (v == MOD && cfg.info[m].defaults == [] ==> t <= MOD)
  {
    hide ChoiceStep;
  }

  /** Defaults that name only members leave no y choice without a y member. */
  lemma OneIsYesIffDefaultsAreMembers(cfg: Config, user: User, env: Env, c: Sym)
    requires WellFormed(cfg) && Solves(cfg, user, env) && IsChoice(cfg, c) && env.tri(c) == YES
    requires forall m :: m in Members(cfg, c) ==> cfg.info[m].defaults == []
    requires c in user.picks ==> user.picks[c] in Members(cfg, c)
    ensures
      var first := FirstDefault(cfg, Members(cfg, c), cfg.info[c].role.picks, SetTri(cfg, env, c, YES));
      (exists m :: m in Members(cfg, c) && env.tri(m) == YES) <==>
        (c in user.picks && Visibility(cfg, user.picks[c], env) != NO) || first.None? || first.value in Members(cfg, c)
  {
    hide Base, FirstDefault, FirstVisible, Visibility, Solves;
    ExactlyOneIsYes(cfg, user, env, c);
    if c in user.picks {
      TargetIsMember(cfg, user, env, c, user.picks[c]);
    }
  }

  /** A choice that is not y has no member that is y; in one that is n all are n,
      and in one that is m all but tristate members are n. */
  lemma OtherwiseNoneIsYes(cfg: Config, user: User, env: Env, c: Sym, m: Sym)
    requires WellFormed(cfg) && Solves(cfg, user, env) && IsMemberOf(cfg, m, c) && env.tri(c) != YES
    requires cfg.info[m].defaults == []
    ensures env.tri(m) != YES
    ensures env.tri(c) == NO || !m.kind.TristateKind? ==> env.tri(m) == NO
  {
    hide Base, Visibility;
    MemberFacts(cfg, m, c);
    VisibleMember(cfg, user, env, m, c);
    MemberValue(cfg, user, m, c, env);
    assert env.tri(m) == Step(cfg, user, m, env).curr;
  }

  /** If nothing can be picked the choice is n, and no member is visible, nor
      would be if the choice were y. */
  lemma NothingPicked(cfg: Config, user: User, env: Env, c: Sym)
    requires WellFormed(cfg) && Solves(cfg, user, env) && NothingToPick(cfg, user, c, env)
    ensures env.tri(c) == NO
    ensures forall m :: m in Members(cfg, c) ==> Visibility(cfg, m, env) == NO == Visibility(cfg, m, SetTri(cfg, env, c, YES))
  {
    hide Base;
    SolvedBy(cfg, user, env, c);
    assert env.tri(c) == NO;
    forall m | m in Members(cfg, c)
      ensures Visibility(cfg, m, env) == NO == Visibility(cfg, m, SetTri(cfg, env, c, YES))
    {
      VisibleMember(cfg, user, env, m, c);
      assert TargetVisible(cfg, Members(cfg, c), m, SetTri(cfg, env, c, YES)) == NO;
    }
  }

  // ---------- A default that is no member ----------

  const C := Sym(3, Boolean, false)
  const M := Sym(4, Boolean, false)
  const OUTSIDE := Sym(5, Boolean, false)

  function AlwaysSeen(s: Sym): Tristate {
    YES
  }

  /** A choice with a visible member and a default, remembered as visible, that is
      not among its members. */
  function OutsideConfig(): Config {
    Simple(map[C := SymInfo([None], None, None, None, [], Choice([M], [PickDefault(None, OUTSIDE)])),
               M := SymInfo([Some(Symbol(C))], None, None, None, [], Member(C))], AlwaysSeen)
  }

  function OutsideRank(s: Sym): nat {
    if s == C then 0 else 1
  }

  lemma OutsideIsWellFormed()
    ensures WellFormed(OutsideConfig())
  {
    OneChoiceIsWellFormed(OutsideConfig().info, AlwaysSeen, C, M);
    hide WellFormed;
  }

  lemma OutsideIsRanked()
    ensures Ranked(OutsideConfig(), OutsideRank)
  {
    var cfg := OutsideConfig();
    var picks := cfg.info[C].role.picks;
    assert cfg.info[C].prompts[1..] == [] && cfg.info[M].prompts[1..] == [] && picks[1..] == [] && [M][1..] == [];
    assert SymsOfPrompts(cfg.info[C].prompts) == {} && SymsOfPrompts(cfg.info[M].prompts) == {C} && SymsOfPicks(picks) == {};
    assert SymsOfMembers(cfg, [M][1..]) == {} && SymsOfMembers(cfg, [M]) == {C};
    hide SymsOfPrompts, SymsOfPicks, SymsOfMembers;
    assert PickReads(cfg, C) == {} && Reads(cfg, C) == {} && Reads(cfg, M) == {C};
  }

  /** A case: the choice is y and picks the symbol outside, so that its only member,
      although visible, is n. */
  lemma OutsideDefaultLeavesNone()
    ensures WellFormed(OutsideConfig()) && Ranked(OutsideConfig(), OutsideRank)
    ensures
      var cfg, user := OutsideConfig(), User(map[C := YES], {C}, map[]);
      var env := SpecEnv(cfg, user, OutsideRank);
      && Solves(cfg, user, env) && env.tri(C) == YES && Step(cfg, user, C, env).pick == Some(OUTSIDE)
      && Visibility(cfg, M, env) == YES && env.tri(M) == NO
      && forall m :: m in Members(cfg, C) ==> env.tri(m) != YES
  {
    OutsideIsWellFormed();
    OutsideIsRanked();
    var cfg, user := OutsideConfig(), User(map[C := YES], {C}, map[]);
    SpecSolves(cfg, user, OutsideRank);
    assert Members(cfg, C) == [M];
    hide *;
    OutsideValues(user, SpecEnv(cfg, user, OutsideRank));
  }

  lemma OutsideValues(user: User, env: Env)
    requires user == User(map[C := YES], {C}, map[]) && Solves(OutsideConfig(), user, env)
    ensures
      && env.tri(C) == YES && Step(OutsideConfig(), user, C, env).pick == Some(OUTSIDE)
      && Visibility(OutsideConfig(), M, env) == YES && env.tri(M) == NO
  {
    var cfg := OutsideConfig();
    SolvedBy(cfg, user, env, C);
    SolvedBy(cfg, user, env, M);
    OnePrompt(cfg, C, env);
    OnePrompt(cfg, M, env);
    hide Visibility, Solves;
    assert OUTSIDE !in cfg.info;
    assert Pick(cfg, user, C, env) == Some(OUTSIDE);
    assert ChoiceStep(cfg, user, C, env).pick == Some(OUTSIDE);
  }
}
