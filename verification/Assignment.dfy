/** What a user's assignment does to the value of a symbol. */
module Assignment {
  import opened Options
  import opened Tristates
  import opened Exprs
  import opened Calculation
  import opened Choices

  /** The range check, on the calculated fields of a symbol. */
  function InRange(cfg: Config, s: Sym, c: Calc, val: Tristate): bool
    requires s in cfg.info
  {
    var forChoice := cfg.info[s].role.Member? && c.visible == YES;
    if c.visible == NO then false
    else if (ActsAsBool(cfg, s) || forChoice) && val == MOD then false
    else if c.visible <= c.rev then false
    else if c.imp == YES && val == MOD then false
    else if forChoice then val == YES
    else c.rev <= val <= c.visible
  }

  /** The user's values after an assignment. A member set to y becomes the pick of
      its choice, which counts as set, and so do the members in `decided`. */
  function Assigned(cfg: Config, user: User, s: Sym, val: Tristate, decided: set<Sym>): User
    requires s in cfg.info
  {
    var role := cfg.info[s].role;
    if role.Member? && val == YES then
      User(user.stored[s := val], user.has + {s, role.choice} + decided, user.picks[role.choice := s])
    else User(user.stored[s := val], user.has + {s}, user.picks)
  }

  /** The two users differ at most in `d`. */
  ghost predicate SameExcept(user1: User, user2: User, d: set<Sym>) {
    forall t :: t !in d ==> SameFor(user1, user2, t)
  }

  /** Nothing in `d` is ranked below `t`. */
  ghost predicate Lowest(cfg: Config, rank: Sym -> nat, t: Sym, d: set<Sym>) {
    forall x :: x in d && x in cfg.info ==> rank(t) <= rank(x)
  }

  /** Symbols that are not ranked above those answered for do not depend on the
      answers. */
  lemma {:induction false} LowerUnaffected(cfg: Config, rank: Sym -> nat, user1: User, user2: User,
                                          env1: Env, env2: Env, d: set<Sym>, t: Sym)
    requires WellFormed(cfg) && Ranked(cfg, rank) && SameExcept(user1, user2, d)
    requires Solves(cfg, user1, env1) && Solves(cfg, user2, env2)
    requires t in cfg.info ==> t !in d && Lowest(cfg, rank, t, d)
    ensures env1.tri(t) == env2.tri(t)
    decreases if t in cfg.info then rank(t) + 1 else 0, 0
  {
    hide Step;
    if t in cfg.info {
      LowerReads(cfg, rank, user1, user2, env1, env2, d, t);
      if cfg.info[t].role.Member? {
        assert IsChoice(cfg, cfg.info[t].role.choice) && cfg.info[t].role.choice in Reads(cfg, t);
      }
      SameStep(cfg, user1, user2, t, env1);
    }
  }

  /** What the lowest of those answered for reads is as it was. */
  lemma {:induction false} LowerReads(cfg: Config, rank: Sym -> nat, user1: User, user2: User,
                                     env1: Env, env2: Env, d: set<Sym>, t: Sym)
    requires WellFormed(cfg) && Ranked(cfg, rank) && SameExcept(user1, user2, d)
    requires Solves(cfg, user1, env1) && Solves(cfg, user2, env2)
    requires t in cfg.info && Lowest(cfg, rank, t, d)
    ensures AgreeOn(env1, env2, Reads(cfg, t))
    ensures Step(cfg, user2, t, env2) == Step(cfg, user2, t, env1)
    decreases rank(t), 1
  {
    hide Step, Reads;
    forall u | u in Reads(cfg, t)
      ensures env1.tri(u) == env2.tri(u)
    {
      LowerUnaffected(cfg, rank, user1, user2, env1, env2, d, u);
    }
    StepReads(cfg, user2, t, env1, env2);
  }

  /** Setting `s` only changes how its own prompt is answered: everything else
      that enters its calculation stays the same. */
  lemma OnlyAnswerChanges(cfg: Config, rank: Sym -> nat, user: User, env: Env, env': Env, s: Sym, val: Tristate)
    requires WellFormed(cfg) && Ranked(cfg, rank) && s in cfg.info && !(cfg.info[s].role.Member? && val == YES)
    requires Solves(cfg, user, env) && Solves(cfg, Assigned(cfg, user, s, val, {}), env')
    ensures var user' := Assigned(cfg, user, s, val, {}); Step(cfg, user', s, env') == Step(cfg, user', s, env)
  {
    hide Step, Reads, Solves, WellFormed, Ranked;
    LowerReads(cfg, rank, user, Assigned(cfg, user, s, val, {}), env, env', {s}, s);
  }

  /** The range check accepts exactly the values within the visibility of a
      symbol that is not held by selects, which take effect when calculated
      again. */
  lemma AcceptedTakesEffect(cfg: Config, rank: Sym -> nat, user: User, env: Env, env': Env, s: Sym, val: Tristate)
    requires WellFormed(cfg) && Ranked(cfg, rank) && s in cfg.info && cfg.info[s].role.Plain?
    requires Solves(cfg, user, env) && Solves(cfg, Assigned(cfg, user, s, val, {}), env')
    ensures
      var c := Step(cfg, user, s, env);
      InRange(cfg, s, c, val) <==> c.visible > c.rev && val <= c.visible && env'.tri(s) == val
  {
    OnlyAnswerChanges(cfg, rank, user, env, env', s, val);
  }

  /** The same of a choice, where y takes effect exactly if something can be
      picked. */
  lemma ChoiceTakesEffect(cfg: Config, rank: Sym -> nat, user: User, env: Env, env': Env, c: Sym, val: Tristate)
    requires WellFormed(cfg) && Ranked(cfg, rank) && IsChoice(cfg, c)
    requires Solves(cfg, user, env) && Solves(cfg, Assigned(cfg, user, c, val, {}), env')
    requires InRange(cfg, c, Step(cfg, user, c, env), val)
    ensures env'.tri(c) == val <==> val != YES || Pick(cfg, user, c, env).Some?
  {
    hide Pick, Base, InRange, Solves, WellFormed, Ranked;
    var user' := Assigned(cfg, user, c, val, {});
    OnlyAnswerChanges(cfg, rank, user, env, env', c, val);
    SolvedBy(cfg, user', env', c);
    SamePick(cfg, user, user', c, env);
    AnsweredBase(cfg, user, c, env, val);
  }

  /** A choice whose only member has no prompt. */
  function EmptyConfig(): Config {
    Simple(map[C := SymInfo([None], None, None, None, [], Choice([M], [])), M := SymInfo([], None, None, None, [], Member(C))], Unseen)
  }

  lemma EmptyIsWellFormed()
    ensures WellFormed(EmptyConfig())
  {
    OneChoiceIsWellFormed(EmptyConfig().info, Unseen, C, M);
    hide WellFormed;
  }

  lemma EmptyIsRanked()
    ensures Ranked(EmptyConfig(), OutsideRank)
  {
    var cfg := EmptyConfig();
    assert cfg.info[C].prompts[1..] == [] && [M][1..] == [];
    assert SymsOfPrompts(cfg.info[C].prompts) == {} && SymsOfPrompts(cfg.info[M].prompts) == {};
    assert SymsOfMembers(cfg, [M][1..]) == {} && SymsOfMembers(cfg, [M]) == {};
    hide SymsOfPrompts, SymsOfMembers;
    assert PickReads(cfg, C) == {} && Reads(cfg, C) == {} && Reads(cfg, M) == {C};
  }

  lemma EmptyValues(user: User, env: Env)
    requires user.picks == map[] && Solves(EmptyConfig(), user, env)
    ensures env.tri(C) == NO && InRange(EmptyConfig(), C, Step(EmptyConfig(), user, C, env), YES)
  {
    var cfg, env1 := EmptyConfig(), SetTri(EmptyConfig(), env, C, YES);
    SolvedBy(cfg, user, env, C);
    OnePrompt(cfg, C, env);
    assert Visibility(cfg, M, env1) == NO;
    hide Visibility, Solves;
    assert TargetVisible(cfg, [M], M, env1) == NO;
    assert [M][1..] == [];
    assert Pick(cfg, user, C, env).None?;
  }

  /** A case: y is accepted for the choice, and as there is nothing to pick it is n
      afterwards. */
  lemma AcceptedChoiceStaysNo()
    ensures WellFormed(EmptyConfig()) && Ranked(EmptyConfig(), OutsideRank)
    ensures
      var cfg, user := EmptyConfig(), User(map[], {}, map[]);
      var user' := Assigned(cfg, user, C, YES, {});
      var env, env' := SpecEnv(cfg, user, OutsideRank), SpecEnv(cfg, user', OutsideRank);
      && Solves(cfg, user, env) && Solves(cfg, user', env')
      && InRange(cfg, C, Step(cfg, user, C, env), YES) && env'.tri(C) == NO
  {
    EmptyIsWellFormed();
    EmptyIsRanked();
    var cfg, user := EmptyConfig(), User(map[], {}, map[]);
    var user' := Assigned(cfg, user, C, YES, {});
    SpecSolves(cfg, user, OutsideRank);
    SpecSolves(cfg, user', OutsideRank);
    hide SpecEnv, SpecCalc, WellFormed, Ranked, Solves, Step, InRange;
    EmptyValues(user, SpecEnv(cfg, user, OutsideRank));
    EmptyValues(user', SpecEnv(cfg, user', OutsideRank));
  }

  /** An accepted value is what the choice is, but for something to pick. */
  lemma AnsweredBase(cfg: Config, user: User, c: Sym, env: Env, val: Tristate)
    requires IsChoice(cfg, c) && InRange(cfg, c, Step(cfg, user, c, env), val)
    ensures Base(cfg, Assigned(cfg, user, c, val, {}), c, env).curr == val
  {
    hide Pick, Visibility, DepValue;
  }

  lemma SamePick(cfg: Config, user1: User, user2: User, c: Sym, env: Env)
    requires IsChoice(cfg, c) && user1.picks == user2.picks
    ensures Pick(cfg, user1, c, env) == Pick(cfg, user2, c, env)
  {
  }

  // ---------- Members ----------

  /** A choice that is y stays y when it counts as set. */
  lemma SetStaysYes(cfg: Config, user: User, user': User, c: Sym, env: Env)
    requires IsChoice(cfg, c) && Base(cfg, user, c, env).curr == YES
    requires c in user'.has && (c in user.has ==> Stored(user', c) == Stored(user, c))
    ensures Base(cfg, user', c, env).curr == YES
  {
    hide Visibility, DepValue;
  }

  /** The choice of a visible member set to y picks it. */
  lemma ChoicePicksSet(cfg: Config, user: User, env: Env, m: Sym, c: Sym, decided: set<Sym>)
    requires WellFormed(cfg) && Solves(cfg, user, env) && IsMemberOf(cfg, m, c)
    requires env.tri(c) == YES && Visibility(cfg, m, env) == YES
    ensures IsChoice(cfg, c)
    ensures
      var s := ChoiceStep(cfg, Assigned(cfg, user, m, YES, decided), c, env);
      s.curr == YES && s.pick == Some(m)
  {
    MemberFacts(cfg, m, c);
    var user' := Assigned(cfg, user, m, YES, decided);
    TargetIsMember(cfg, user, env, c, m);
    SolvedBy(cfg, user, env, c);
    assert ChoiceStep(cfg, user, c, env).curr == YES;
    assert m != c;
    hide Base, Visibility, TargetVisible, DefaultPick, Solves, WellFormed;
    SetStaysYes(cfg, user, user', c, env);
    assert PickWhenYes(cfg, user', c, SetTri(cfg, env, c, YES)) == Some(m);
  }

  /** A member that may be set to y is y afterwards, and no other is, whenever
      the choice is y. */
  lemma PickTakesEffect(cfg: Config, rank: Sym -> nat, user: User, env: Env, env': Env, m: Sym, c: Sym, decided: set<Sym>)
    requires WellFormed(cfg) && Ranked(cfg, rank) && IsMemberOf(cfg, m, c)
    requires forall x :: x in decided ==> IsMemberOf(cfg, x, c)
    requires Solves(cfg, user, env) && Solves(cfg, Assigned(cfg, user, m, YES, decided), env')
    requires env.tri(c) == YES && InRange(cfg, m, Step(cfg, user, m, env), YES)
    ensures env'.tri(c) == YES && env'.tri(m) == YES && IsChoice(cfg, c)
    ensures forall x :: IsMemberOf(cfg, x, c) && x != m && (cfg.info[x].defaults == [] || Visibility(cfg, x, env') != NO) ==>
      env'.tri(x) == NO
  {
    hide Step, ChoiceStep, Base, Reads, Visibility, InRange, WellFormed, Solves, Ranked, Lowest, SameExcept, Pick, Assigned;
    MemberFacts(cfg, m, c);
    var user' := Assigned(cfg, user, m, YES, decided);
    VisibleToSet(cfg, user, env, m, c);
    ChoicePicksSet(cfg, user, env, m, c, decided);
    ChoiceIsLowest(cfg, rank, user, m, c, decided);
    LowerReads(cfg, rank, user, user', env, env', {m, c} + decided, c);
    ChoiceStepIs(cfg, user', c, env);
    ChoiceStepIs(cfg, user', c, env');
    SolvedBy(cfg, user', env', c);
    ExactlyOneIsYes(cfg, user', env', c);
    forall x | IsMemberOf(cfg, x, c) ensures x in Members(cfg, c) {
      MemberFacts(cfg, x, c);
    }
  }

  lemma VisibleToSet(cfg: Config, user: User, env: Env, m: Sym, c: Sym)
    requires WellFormed(cfg) && Solves(cfg, user, env) && IsMemberOf(cfg, m, c)
    requires env.tri(c) == YES && InRange(cfg, m, Step(cfg, user, m, env), YES)
    ensures Visibility(cfg, m, env) == YES
  {
    hide WellFormed, Solves, Step, Visibility;
    VisibleMember(cfg, user, env, m, c);
    MemberFields(cfg, user, m, c, env);
  }

  lemma ChoiceIsLowest(cfg: Config, rank: Sym -> nat, user: User, m: Sym, c: Sym, decided: set<Sym>)
    requires WellFormed(cfg) && Ranked(cfg, rank) && IsMemberOf(cfg, m, c)
    requires forall x :: x in decided ==> IsMemberOf(cfg, x, c)
    ensures IsChoice(cfg, c) && Lowest(cfg, rank, c, {m, c} + decided)
    ensures SameExcept(user, Assigned(cfg, user, m, YES, decided), {m, c} + decided)
  {
    MemberFacts(cfg, m, c);
    hide WellFormed;
    forall x | x in {m, c} + decided && x != c
      ensures rank(c) < rank(x)
    {
      assert IsMemberOf(cfg, x, c) && c in Reads(cfg, x);
    }
  }

  lemma ChoiceStepIs(cfg: Config, user: User, c: Sym, env: Env)
    requires IsChoice(cfg, c)
    ensures Step(cfg, user, c, env) == ChoiceStep(cfg, user, c, env)
    ensures ChoiceStep(cfg, user, c, env).curr == YES ==> ChoiceStep(cfg, user, c, env).pick == Pick(cfg, user, c, env)
  {
    hide Base, Pick;
  }

  /** An accepted value of a member takes effect. */
  lemma MemberTakesEffect(cfg: Config, rank: Sym -> nat, user: User, env: Env, env': Env, m: Sym, c: Sym, val: Tristate, decided: set<Sym>)
    requires WellFormed(cfg) && Ranked(cfg, rank) && IsMemberOf(cfg, m, c)
    requires forall x :: x in decided ==> IsMemberOf(cfg, x, c)
    requires Solves(cfg, user, env) && Solves(cfg, Assigned(cfg, user, m, val, if val == YES then decided else {}), env')
    requires InRange(cfg, m, Step(cfg, user, m, env), val)
    ensures env'.tri(m) == val
  {
    hide Base, Visibility, ChoiceStep;
    MemberFacts(cfg, m, c);
    VisibleMember(cfg, user, env, m, c);
    MemberFields(cfg, user, m, c, env);
    if val == YES {
      PickTakesEffect(cfg, rank, user, env, env', m, c, decided);
    } else {
      var user' := Assigned(cfg, user, m, val, {});
      OnlyAnswerChanges(cfg, rank, user, env, env', m, val);
      MemberFields(cfg, user', m, c, env);
    }
  }

  /** A member that is m for its choice, or hidden, by itself. */
  lemma MemberFields(cfg: Config, user: User, m: Sym, c: Sym, env: Env)
    requires IsMemberOf(cfg, m, c)
    ensures
      var v, s := Visibility(cfg, m, env), Step(cfg, user, m, env);
      && s.visible == v && s.rev == s.imp == NO
      && (v == MOD ==> !ActsAsBool(cfg, m))
      && (v == MOD && m in user.has ==> s.curr == TriAnd(Stored(user, m), MOD))
      && (v == MOD && m !in user.has && cfg.info[m].defaults == [] ==> s.curr == NO)
      && (v == NO && cfg.info[m].defaults == [] ==> s.curr == NO)
  {
    hide ChoiceStep, MaxVisible;
  }

  /** Assigning a member the value that it has changes nothing at all: the old
      values are the values for the new answers too. */
  lemma ReassignedMemberStands(cfg: Config, user: User, env: Env, m: Sym, c: Sym, decided: set<Sym>)
    requires WellFormed(cfg) && Solves(cfg, user, env) && IsMemberOf(cfg, m, c)
    requires forall x :: x in decided ==> IsMemberOf(cfg, x, c) && Visibility(cfg, x, env) != NO
    requires cfg.info[m].defaults == []
    ensures Solves(cfg, Assigned(cfg, user, m, env.tri(m), if env.tri(m) == YES then decided else {}), env)
  {
    var val := env.tri(m);
    var user' := Assigned(cfg, user, m, val, if val == YES then decided else {});
    forall s | s in cfg.info
      ensures env.tri(s) == Step(cfg, user', s, env).curr
    {
      hide Step, Solves, WellFormed, Visibility;
      SolvedBy(cfg, user, env, s);
      if val == YES {
        ReassignedYes(cfg, user, env, m, c, decided, s);
      } else {
        ReassignedOther(cfg, user, env, m, c, s);
      }
    }
  }

  lemma PresentYes(cfg: Config, user: User, env: Env, m: Sym, c: Sym)
    requires WellFormed(cfg) && Solves(cfg, user, env) && IsMemberOf(cfg, m, c)
    requires cfg.info[m].defaults == [] && env.tri(m) == YES
    ensures IsChoice(cfg, c) && env.tri(c) == YES && Visibility(cfg, m, env) == YES
    ensures ChoiceStep(cfg, user, c, env).pick == Some(m)
  {
    MemberFacts(cfg, m, c);
    SolvedBy(cfg, user, env, m);
    hide ChoiceStep, Visibility, WellFormed, Solves;
    VisibleMember(cfg, user, env, m, c);
    MemberValue(cfg, user, m, c, env);
  }

  lemma ReassignedYes(cfg: Config, user: User, env: Env, m: Sym, c: Sym, decided: set<Sym>, s: Sym)
    requires WellFormed(cfg) && Solves(cfg, user, env) && IsMemberOf(cfg, m, c)
    requires forall x :: x in decided ==> IsMemberOf(cfg, x, c) && Visibility(cfg, x, env) != NO
    requires cfg.info[m].defaults == [] && env.tri(m) == YES && s in cfg.info
    ensures Step(cfg, Assigned(cfg, user, m, YES, decided), s, env).curr == Step(cfg, user, s, env).curr
  {
    hide Base, ChoiceStep, MemberStep, Step, Visibility, WellFormed, Solves, Pick;
    MemberFacts(cfg, m, c);
    var user' := Assigned(cfg, user, m, YES, decided);
    PresentYes(cfg, user, env, m, c);
    ChoicePicksSet(cfg, user, env, m, c, decided);
    SolvedBy(cfg, user, env, c);
    ChoiceStepIs(cfg, user', c, env);
    if s == c {
    } else if IsMemberOf(cfg, s, c) {
      VisibleMember(cfg, user, env, s, c);
      MemberByPick(cfg, user, user', s, c, env);
    } else {
      if cfg.info[s].role.Member? { MemberFacts(cfg, s, cfg.info[s].role.choice); }
      UntouchedBy(cfg, user, m, c, decided, s);
      SameStep(cfg, user, user', s, env);
    }
  }

  lemma UntouchedBy(cfg: Config, user: User, m: Sym, c: Sym, decided: set<Sym>, s: Sym)
    requires IsMemberOf(cfg, m, c) && s in cfg.info && s != c && !IsMemberOf(cfg, s, c)
    requires IsChoice(cfg, c) && (cfg.info[s].role.Member? ==> IsChoice(cfg, cfg.info[s].role.choice))
    requires forall x :: x in decided ==> IsMemberOf(cfg, x, c)
    ensures
      var user' := Assigned(cfg, user, m, YES, decided);
      SameFor(user, user', s) && (cfg.info[s].role.Member? ==> SameFor(user, user', cfg.info[s].role.choice))
  {
  }

  lemma MemberByPick(cfg: Config, user: User, user': User, s: Sym, c: Sym, env: Env)
    requires IsMemberOf(cfg, s, c) && IsChoice(cfg, c)
    requires ChoiceStep(cfg, user, c, env).pick == ChoiceStep(cfg, user', c, env).pick
    requires Visibility(cfg, s, env) == MOD ==> SameFor(user, user', s)
    ensures Step(cfg, user, s, env).curr == Step(cfg, user', s, env).curr
  {
    hide ChoiceStep, Visibility, DefaultValue;
  }

  lemma ReassignedOther(cfg: Config, user: User, env: Env, m: Sym, c: Sym, s: Sym)
    requires WellFormed(cfg) && Solves(cfg, user, env) && IsMemberOf(cfg, m, c)
    requires cfg.info[m].defaults == [] && env.tri(m) != YES && s in cfg.info
    ensures Step(cfg, Assigned(cfg, user, m, env.tri(m), {}), s, env).curr == Step(cfg, user, s, env).curr
  {
    hide Base, ChoiceStep, MemberStep, Step, Visibility, WellFormed, Solves, Pick;
    MemberFacts(cfg, m, c);
    var user' := Assigned(cfg, user, m, env.tri(m), {});
    SolvedBy(cfg, user, env, m);
    assert m != c && SameFor(user, user', c);
    if s == m {
      SameChoice(cfg, user, user', c, env);
      MemberFields(cfg, user, m, c, env);
      MemberFields(cfg, user', m, c, env);
      MemberValue(cfg, user, m, c, env);
      MemberValue(cfg, user', m, c, env);
    } else {
      if cfg.info[s].role.Member? { NotMember(cfg, m, s); }
      SameStep(cfg, user, user', s, env);
    }
  }

  lemma NotMember(cfg: Config, m: Sym, s: Sym)
    requires WellFormed(cfg) && m in cfg.info && cfg.info[m].role.Member? && s in cfg.info && cfg.info[s].role.Member?
    ensures cfg.info[s].role.choice != m
  {
  }

  lemma SameChoice(cfg: Config, user: User, user': User, c: Sym, env: Env)
    requires IsChoice(cfg, c) && SameFor(user, user', c)
    ensures ChoiceStep(cfg, user, c, env) == ChoiceStep(cfg, user', c, env)
  {
    hide Base, ChoiceStep;
    SameStep(cfg, user, user', c, env);
    ChoiceStepIs(cfg, user, c, env);
    ChoiceStepIs(cfg, user', c, env);
  }

  /** What the range check accepts for a choice: what it would be when answered so,
      before it picks, within its visibility and not held by selects. */
  lemma ChoiceAccepts(cfg: Config, user: User, env: Env, c: Sym, val: Tristate)
    requires IsChoice(cfg, c)
    ensures
      var s := Step(cfg, user, c, env);
      InRange(cfg, c, s, val) <==>
        s.visible > s.rev && val <= s.visible && Base(cfg, Assigned(cfg, user, c, val, {}), c, env).curr == val
  {
    hide Pick, Visibility, DepValue;
  }

  /** And for a member: y where it is visible as y, and n and m where as m. */
  lemma MemberAccepts(cfg: Config, user: User, env: Env, m: Sym, c: Sym, val: Tristate)
    requires IsMemberOf(cfg, m, c)
    ensures
      var v := Visibility(cfg, m, env);
      InRange(cfg, m, Step(cfg, user, m, env), val) <==> (v == YES && val == YES) || (v == MOD && val != YES)
  {
    hide Step, Visibility;
    MemberFields(cfg, user, m, c, env);
  }

  // ---------- Exactly when a value takes effect ----------

  /** What an answer makes of a symbol with the calculated fields `c`: nothing while
      it is invisible; otherwise the answer is bounded by the visibility and raised
      by selects, and m becomes y where there is no m. */
  function Answered(cfg: Config, s: Sym, c: Calc, val: Tristate): Tristate {
    if c.visible == NO then c.curr
    else PromoteIf(ActsAsBool(cfg, s) || c.imp == YES, TriOr(TriAnd(val, c.visible), c.rev))
  }

  /** Whether a value given to `s` will be its value, by the fields that the answers
      given so far make. A choice at y needs something to pick. A member set to y
      needs a choice that is y once it counts as set, and must be visible then; set
      to another value it obeys where it is m, and otherwise only if it has the
      value anyway. */
  ghost predicate Obeys(cfg: Config, user: User, env: Env, s: Sym, val: Tristate, decided: set<Sym>)
    requires s in cfg.info
  {
    var c := Step(cfg, user, s, env);
    match cfg.info[s].role
    case Plain => Answered(cfg, s, c, val) == val
    case Choice(_, _) =>
      var v := Answered(cfg, s, c, val);
      (if c.visible != NO && v == YES && Pick(cfg, user, s, env).None? then NO else v) == val
    case Member(choice) =>
      if val == YES then
        && choice in cfg.info && Base(cfg, Assigned(cfg, user, s, YES, decided), choice, env).curr == YES
        && Visibility(cfg, s, SetTri(cfg, env, choice, YES)) != NO
      else c.visible == MOD || c.curr == val
  }

  /** Whatever is set, accepted or not. */
  lemma TakesEffectExactly(cfg: Config, rank: Sym -> nat, user: User, env: Env, env': Env, s: Sym, val: Tristate, decided: set<Sym>)
    requires WellFormed(cfg) && Ranked(cfg, rank) && s in cfg.info
    requires cfg.info[s].role.Member? ==>
      cfg.info[s].defaults == [] && forall x :: x in decided ==> IsMemberOf(cfg, x, cfg.info[s].role.choice)
    requires Solves(cfg, user, env) && Solves(cfg, Assigned(cfg, user, s, val, decided), env')
    ensures env'.tri(s) == val <==> Obeys(cfg, user, env, s, val, decided)
  {
    hide Step, Solves, WellFormed, Ranked, Pick, Answered, Base, Visibility;
    match cfg.info[s].role
    case Plain => PlainObeys(cfg, rank, user, env, env', s, val);
    case Choice(_, _) => ChoiceObeys(cfg, rank, user, env, env', s, val);
    case Member(c) =>
      if val == YES {
        PickObeys(cfg, rank, user, env, env', s, c, decided);
      } else {
        MemberObeys(cfg, rank, user, env, env', s, c, val);
      }
  }

  lemma PlainObeys(cfg: Config, rank: Sym -> nat, user: User, env: Env, env': Env, s: Sym, val: Tristate)
    requires WellFormed(cfg) && Ranked(cfg, rank) && s in cfg.info && cfg.info[s].role.Plain?
    requires Solves(cfg, user, env) && Solves(cfg, Assigned(cfg, user, s, val, {}), env')
    ensures env'.tri(s) == Answered(cfg, s, Step(cfg, user, s, env), val)
  {
    hide Solves, WellFormed, Ranked, Visibility, DepValue, DefaultValue;
    OnlyAnswerChanges(cfg, rank, user, env, env', s, val);
    SolvedBy(cfg, Assigned(cfg, user, s, val, {}), env', s);
  }

  lemma ChoiceObeys(cfg: Config, rank: Sym -> nat, user: User, env: Env, env': Env, c: Sym, val: Tristate)
    requires WellFormed(cfg) && Ranked(cfg, rank) && IsChoice(cfg, c)
    requires Solves(cfg, user, env) && Solves(cfg, Assigned(cfg, user, c, val, {}), env')
    ensures
      var s := Step(cfg, user, c, env);
      var v := Answered(cfg, c, s, val);
      env'.tri(c) == if s.visible != NO && v == YES && Pick(cfg, user, c, env).None? then NO else v
  {
    hide Pick, Solves, WellFormed, Ranked, Visibility, DepValue;
    var user' := Assigned(cfg, user, c, val, {});
    OnlyAnswerChanges(cfg, rank, user, env, env', c, val);
    SolvedBy(cfg, user', env', c);
    SamePick(cfg, user, user', c, env);
  }

  lemma MemberObeys(cfg: Config, rank: Sym -> nat, user: User, env: Env, env': Env, m: Sym, c: Sym, val: Tristate)
    requires WellFormed(cfg) && Ranked(cfg, rank) && IsMemberOf(cfg, m, c) && val != YES && cfg.info[m].defaults == []
    requires Solves(cfg, user, env) && Solves(cfg, Assigned(cfg, user, m, val, {}), env')
    ensures
      var s := Step(cfg, user, m, env);
      env'.tri(m) == val <==> s.visible == MOD || s.curr == val
  {
    hide Step, Base, Visibility, ChoiceStep, Solves, WellFormed, Ranked;
    var user' := Assigned(cfg, user, m, val, {});
    MemberFacts(cfg, m, c);
    OwnChoice(cfg, m, c);
    OnlyAnswerChanges(cfg, rank, user, env, env', m, val);
    SolvedBy(cfg, user', env', m);
    SameChoice(cfg, user, user', c, env);
    MemberFields(cfg, user, m, c, env);
    MemberFields(cfg, user', m, c, env);
    MemberValue(cfg, user, m, c, env);
    MemberValue(cfg, user', m, c, env);
  }

  lemma OwnChoice(cfg: Config, m: Sym, c: Sym)
    requires IsMemberOf(cfg, m, c) && IsChoice(cfg, c)
    ensures m != c
  {
  }

  lemma PickObeys(cfg: Config, rank: Sym -> nat, user: User, env: Env, env': Env, m: Sym, c: Sym, decided: set<Sym>)
    requires WellFormed(cfg) && Ranked(cfg, rank) && IsMemberOf(cfg, m, c) && cfg.info[m].defaults == []
    requires forall x :: x in decided ==> IsMemberOf(cfg, x, c)
    requires Solves(cfg, user, env) && Solves(cfg, Assigned(cfg, user, m, YES, decided), env')
    ensures c in cfg.info
    ensures env'.tri(m) == YES <==>
      Base(cfg, Assigned(cfg, user, m, YES, decided), c, env).curr == YES && Visibility(cfg, m, SetTri(cfg, env, c, YES)) != NO
  {
    hide Step, ChoiceStep, Base, Reads, Visibility, WellFormed, Solves, Ranked, Lowest, SameExcept, Pick, Assigned;
    MemberFacts(cfg, m, c);
    var user' := Assigned(cfg, user, m, YES, decided);
    ChoiceIsLowest(cfg, rank, user, m, c, decided);
    LowerReads(cfg, rank, user, user', env, env', {m, c} + decided, c);
    SeenAlike(cfg, env, env', m, c);
    ChoiceStepIs(cfg, user', c, env);
    ChoiceStepIs(cfg, user', c, env');
    SolvedBy(cfg, user', env', c);
    SolvedBy(cfg, user', env', m);
    NewPick(cfg, user, env, m, c, decided);
    if env'.tri(c) == YES {
      TargetIsMember(cfg, user', env', c, m);
      VisibleMember(cfg, user', env', m, c);
      MemberValue(cfg, user', m, c, env');
    } else {
      OtherwiseNoneIsYes(cfg, user', env', c, m);
    }
  }

  /** What shows of a member while its choice is y does not depend on the answers
      for the choice. */
  lemma SeenAlike(cfg: Config, env: Env, env': Env, m: Sym, c: Sym)
    requires WellFormed(cfg) && IsMemberOf(cfg, m, c) && IsChoice(cfg, c) && m in Members(cfg, c)
    requires AgreeOn(env, env', Reads(cfg, c))
    ensures TargetVisible(cfg, Members(cfg, c), m, SetTri(cfg, env', c, YES)) == Visibility(cfg, m, SetTri(cfg, env, c, YES))
  {
    var members := Members(cfg, c);
    assert SymsOfMembers(cfg, members) - {c} <= Reads(cfg, c);
    assert AgreeOn(env, env', SymsOfMembers(cfg, members) - {c});
    SetTriAgree(cfg, env, env', c, SymsOfMembers(cfg, members));
    TargetReads(cfg, members, m, SetTri(cfg, env, c, YES), SetTri(cfg, env', c, YES));
  }

  /** A choice at y with a new pick takes it if it is visible then. */
  lemma NewPick(cfg: Config, user: User, env: Env, m: Sym, c: Sym, decided: set<Sym>)
    requires IsMemberOf(cfg, m, c) && IsChoice(cfg, c) && m in Members(cfg, c)
    ensures
      var user' := Assigned(cfg, user, m, YES, decided);
      var s := ChoiceStep(cfg, user', c, env);
      && (s.curr == YES ==> Base(cfg, user', c, env).curr == YES)
      && (Base(cfg, user', c, env).curr == YES && Visibility(cfg, m, SetTri(cfg, env, c, YES)) != NO ==>
            s.curr == YES && s.pick == Some(m))
  {
    hide Base, Visibility, DefaultPick;
  }

  // ---------- The present value of other symbols ----------

  /** Assigning the value that the symbol already has is not range-checked, and
      nothing is calculated again. The value stands up to a later calculation
      exactly if the symbol is invisible, or the value is within its visibility,
      or a select or an imply by y holds it up. */
  lemma ReassignedValueStands(cfg: Config, rank: Sym -> nat, user: User, env: Env, env': Env, s: Sym)
    requires WellFormed(cfg) && Ranked(cfg, rank) && s in cfg.info && cfg.info[s].role.Plain?
    requires Solves(cfg, user, env) && Solves(cfg, Assigned(cfg, user, s, env.tri(s), {}), env')
    ensures
      var c := Step(cfg, user, s, env);
      env'.tri(s) == env.tri(s) <==> c.visible == NO || c.curr <= c.visible || c.rev == YES || c.imp == YES
  {
    OnlyAnswerChanges(cfg, rank, user, env, env', s, env.tri(s));
  }

  const B := Sym(4, TristateKind, false)

  /** The failing case exists: a tristate with the prompt condition m and the
      default y has the value y; assigning y makes it m. */
  lemma ReassignedValueMayFall()
    ensures
      var info := SymInfo([Some(Symbol(SYM_MOD))], None, None, None, [Default(None, EXPR_YES)], Plain);
      var user, user' := User(map[], {}, map[]), User(map[B := YES], {B}, map[]);
      forall cfg: Config, env: Env, env': Env ::
        cfg.info == map[B := info] && cfg.modules == YES && Solves(cfg, user, env) && Solves(cfg, user', env') ==>
        env.tri(B) == YES && user' == Assigned(cfg, user, B, YES, {}) && env'.tri(B) == MOD
  {
    var info := SymInfo([Some(Symbol(SYM_MOD))], None, None, None, [Default(None, EXPR_YES)], Plain);
    var user, user' := User(map[], {}, map[]), User(map[B := YES], {B}, map[]);
    forall cfg: Config, env: Env, env': Env |
      cfg.info == map[B := info] && cfg.modules == YES && Solves(cfg, user, env) && Solves(cfg, user', env')
      ensures env.tri(B) == YES && user' == Assigned(cfg, user, B, YES, {}) && env'.tri(B) == MOD
    {
      assert env.tri(SYM_MOD) == MOD && env.tri(SYM_YES) == YES && env'.tri(SYM_MOD) == MOD;
      assert info.prompts[1..] == [];
      assert MaxVisible(info.prompts, false, env') == MOD;
      SolvedBy(cfg, user, env, B);
      SolvedBy(cfg, user', env', B);
      assert Step(cfg, user', B, env').curr == MOD;
    }
  }
}
