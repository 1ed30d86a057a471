/** The memoised evaluator: symbols remember their calculated fields while they
    are marked valid. */
module SymTables {
  import opened Options
  import opened Tristates
  import opened Exprs
  import opened Calculation
  import opened Choices
  import opened Assignment

  /** What the evaluator remembers: the user's values, the calculated fields, the
      symbols marked valid, those marked for a line, and the choices and members
      whose values are still to be set. `known` are the symbols whose fields are
      right although they may not be marked. */
  datatype Memo = Memo(user: User, fields: map<Sym, Calc>, valid: set<Sym>, written: set<Sym>, pending: set<Sym>, known: set<Sym>)

  /** What is claimed of a run besides its end: if there are no recursive
      dependencies, that it calculates for this user what the specification says. */
  datatype Run = Run(acyclic: bool, user: User, rank: Sym -> nat)

  /** Members have no dependencies of their own. */
  predicate PlainMember(cfg: Config, s: Sym, c: Calc) {
    s in cfg.info && cfg.info[s].role.Member? ==> c.dir == NO && c.rev == NO && c.imp == NO
  }

  ghost predicate Shape(cfg: Config, m: Memo) {
    && Consistent(cfg) && m.fields.Keys == cfg.info.Keys
    && m.valid <= m.known <= cfg.info.Keys && m.pending <= cfg.info.Keys
    && forall s :: s in m.fields ==> PlainMember(cfg, s, m.fields[s])
  }

  ghost function Final(cfg: Config, run: Run): Env
    requires Ranked(cfg, run.rank)
  {
    SpecEnv(cfg, run.user, run.rank)
  }

  ghost function Spec(cfg: Config, run: Run, s: Sym): Calc
    requires Ranked(cfg, run.rank) && s in cfg.info
  {
    SpecCalc(cfg, run.user, run.rank, s)
  }

  /** The choice comes out the same whether its own user value counts or not. */
  ghost predicate Settled(cfg: Config, user: User, env: Env, c: Sym)
    requires IsChoice(cfg, c)
  {
    ChoiceStep(cfg, user.(has := user.has + {c}), c, env) == ChoiceStep(cfg, user.(has := user.has - {c}), c, env)
  }

  /** The choice counts as set, or not, as in the specification, or it makes no
      difference. */
  ghost predicate Steady(cfg: Config, run: Run, c: Sym, has: bool)
    requires Ranked(cfg, run.rank) && IsChoice(cfg, c)
  {
    (has <==> c in run.user.has) || Settled(cfg, run.user, Final(cfg, run), c)
  }

  /** How the user's values may differ from those specified for: a choice whose
      value is still to be set counts as set, one being or having been calculated
      may have been found to be new. */
  ghost predicate Linked(cfg: Config, run: Run, m: Memo)
    requires Ranked(cfg, run.rank)
  {
    && m.user.picks == run.user.picks
    && (forall s :: s in cfg.info && !IsChoice(cfg, s) ==> SameFor(m.user, run.user, s))
    && (forall c :: IsChoice(cfg, c) ==>
          (Stored(m.user, c) == Stored(run.user, c)
           && (c in m.pending ==> Steady(cfg, run, c, true))
           && (c !in m.valid ==> Steady(cfg, run, c, c in m.user.has))))
  }

  /** Every known symbol that is not being calculated right now holds exactly
      what the specification says. */
  ghost predicate Coherent(cfg: Config, run: Run, busy: set<Sym>, m: Memo) {
    && Shape(cfg, m) && busy <= cfg.info.Keys
    && WellFormed(cfg) && Ranked(cfg, run.rank) && Linked(cfg, run, m)
    && forall s :: s in m.known && s !in busy ==> m.fields[s] == Spec(cfg, run, s)
  }

  /** The fields stayed; the visibility may have been set to what it should be. */
  ghost predicate KeptFields(cfg: Config, run: Run, s: Sym, c0: Calc, c1: Calc)
    requires Ranked(cfg, run.rank) && s in cfg.info
  {
    c1 == c0.(visible := c1.visible) && (c1.visible == c0.visible || c1.visible == Spec(cfg, run, s).visible)
  }

  ghost predicate Kept(cfg: Config, run: Run, s: Sym, m0: Memo, m1: Memo)
    requires Ranked(cfg, run.rank)
  {
    && s in cfg.info && s in m0.fields && s in m1.fields
    && (s in m1.valid <==> s in m0.valid) && (s in m1.known <==> s in m0.known)
    && SameFor(m0.user, m1.user, s) && KeptFields(cfg, run, s, m0.fields[s], m1.fields[s])
  }

  /** What calculations do, other than to the symbols `own` that are being
      calculated: valid symbols stay valid and keep their mark, newly valid ones
      are marked exactly when they get a line, and the symbols in `keep` are not
      touched. */
  ghost predicate Grown(cfg: Config, run: Run, own: set<Sym>, keep: set<Sym>, m0: Memo, m1: Memo)
    requires Ranked(cfg, run.rank)
  {
    && m0.valid <= m1.valid <= cfg.info.Keys && m0.known <= m1.known
    && (forall s :: s in m0.valid && s !in own ==> (s in m1.written <==> s in m0.written))
    && (forall s :: s in m1.valid && s !in m0.valid ==>
          (s in m1.written <==> Written(cfg, run.user, s, Final(cfg, run))))
    && (forall s :: s in keep ==> Kept(cfg, run, s, m0, m1))
  }

  /** `b` is at most the rank of every symbol being calculated. */
  ghost predicate Below(b: nat, rank: Sym -> nat, busy: set<Sym>) {
    forall t :: t in busy ==> b <= rank(t)
  }

  /** The symbols are ranked below `b`, but for the choice that is picking. */
  ghost predicate ReadsBelow(cfg: Config, syms: set<Sym>, rank: Sym -> nat, b: nat, focus: Option<Sym>) {
    forall t :: t in syms && t in cfg.info && Some(t) != focus ==> rank(t) < b
  }

  /** The choice that is picking counts as y meanwhile. */
  ghost predicate Focused(cfg: Config, focus: Option<Sym>, busy: set<Sym>, m: Memo) {
    focus.Some? ==>
      focus.value in cfg.info && focus.value in busy && focus.value in m.valid && focus.value in m.fields
      && m.fields[focus.value].curr == YES
  }

  ghost function FocusEnv(cfg: Config, run: Run, focus: Option<Sym>): Env
    requires Ranked(cfg, run.rank)
  {
    if focus.Some? then SetTri(cfg, Final(cfg, run), focus.value, YES) else Final(cfg, run)
  }

  ghost predicate Known(cfg: Config, syms: set<Sym>, focus: Option<Sym>, m: Memo) {
    forall t :: t in syms && t in cfg.info && Some(t) != focus ==> t in m.known
  }

  // ---------- Growing ----------

  lemma GrownRefl(cfg: Config, run: Run, busy: set<Sym>, own: set<Sym>, keep: set<Sym>, m: Memo)
    requires Coherent(cfg, run, busy, m) && keep <= busy
    ensures Grown(cfg, run, own, keep, m, m)
  {
    hide Written, Final, Spec, Linked, WellFormed;
  }

  lemma GrownTwice(cfg: Config, run: Run, keep: set<Sym>, m0: Memo, m1: Memo, m2: Memo)
    requires Ranked(cfg, run.rank)
    requires Grown(cfg, run, {}, keep, m0, m1) && Grown(cfg, run, {}, keep, m1, m2)
    ensures Grown(cfg, run, {}, keep, m0, m2)
  {
    hide Written, Final, Spec;
  }

  /** The same with symbols of our own, which were valid before. */
  lemma GrownOn(cfg: Config, run: Run, own: set<Sym>, keep: set<Sym>, m0: Memo, m1: Memo, m2: Memo)
    requires Ranked(cfg, run.rank) && own <= m0.valid
    requires Grown(cfg, run, own, keep, m0, m1) && Grown(cfg, run, own, keep, m1, m2)
    ensures Grown(cfg, run, own, keep, m0, m2)
  {
    hide Written, Final, Spec;
  }

  lemma GrownLess(cfg: Config, run: Run, own: set<Sym>, own': set<Sym>, keep: set<Sym>, keep': set<Sym>, m0: Memo, m1: Memo)
    requires Ranked(cfg, run.rank) && Grown(cfg, run, own, keep, m0, m1) && own <= own' && keep' <= keep
    ensures Grown(cfg, run, own', keep', m0, m1)
  {
    hide Written, Final, Spec, Kept;
  }

  lemma GrownKeeps(cfg: Config, run: Run, own: set<Sym>, keep: set<Sym>, s: Sym, m0: Memo, m1: Memo)
    requires Ranked(cfg, run.rank) && Grown(cfg, run, own, keep, m0, m1)
    ensures s in keep ==> Kept(cfg, run, s, m0, m1)
    ensures m0.valid <= m1.valid && m0.known <= m1.known
    ensures s in m0.valid && s !in own ==> (s in m1.written <==> s in m0.written)
  {
    hide Written, Final, Spec, Kept;
  }

  lemma FocusedStays(cfg: Config, run: Run, focus: Option<Sym>, busy: set<Sym>, m0: Memo, m1: Memo)
    requires Ranked(cfg, run.rank) && Grown(cfg, run, {}, busy, m0, m1) && Focused(cfg, focus, busy, m0)
    ensures Focused(cfg, focus, busy, m1)
  {
    hide Written, Final, Spec, Grown;
    if focus.Some? { GrownKeeps(cfg, run, {}, busy, focus.value, m0, m1); }
  }

  /** What a symbol reads is ranked below it. */
  lemma OwnReads(cfg: Config, rank: Sym -> nat, s: Sym)
    requires Ranked(cfg, rank) && s in cfg.info
    ensures
      var info, b := cfg.info[s], rank(s);
      && ReadsBelow(cfg, SymsOfPrompts(info.prompts), rank, b, None)
      && (info.role.Member? ==> ReadsBelow(cfg, {info.role.choice}, rank, b, None))
      && (!info.role.Member? ==>
            && ReadsBelow(cfg, SymsOfOpt(info.dirDep), rank, b, None) && ReadsBelow(cfg, SymsOfOpt(info.revDep), rank, b, None)
            && ReadsBelow(cfg, SymsOfOpt(info.implied), rank, b, None))
      && (!info.role.Choice? ==> ReadsBelow(cfg, SymsOfDefaults(info.defaults), rank, b, None))
  {
    assert BaseReads(cfg, s) <= Reads(cfg, s);
    assert forall t :: t in BaseReads(cfg, s) && t in cfg.info ==> t in Reads(cfg, s);
    hide Reads, SymsOfPrompts, SymsOfOpt, SymsOfDefaults;
  }

  /** What a choice reads to pick is ranked below it, and its members above. */
  lemma OwnPickReads(cfg: Config, rank: Sym -> nat, c: Sym)
    requires WellFormed(cfg) && Ranked(cfg, rank) && IsChoice(cfg, c)
    ensures ReadsBelow(cfg, SymsOfPicks(cfg.info[c].role.picks), rank, rank(c), Some(c))
    ensures forall m :: m in Members(cfg, c) ==>
      m in cfg.info && rank(c) < rank(m) && ReadsBelow(cfg, SymsOfPrompts(cfg.info[m].prompts), rank, rank(c), Some(c))
  {
    PickIsRead(cfg, c);
    forall t | t in PickReads(cfg, c) && t in cfg.info
      ensures rank(t) < rank(c)
    {
      assert t in Reads(cfg, c);
    }
    forall m | m in Members(cfg, c)
      ensures m in cfg.info && rank(c) < rank(m) && ReadsBelow(cfg, SymsOfPrompts(cfg.info[m].prompts), rank, rank(c), Some(c))
    {
      MembersAre(cfg, c, m);
      ChoiceIsRead(cfg, m, c);
      assert c in Reads(cfg, m);
      hide Reads, SymsOfPicks, SymsOfMembers, SymsOfPrompts, WellFormed;
      MemberReads(cfg, Members(cfg, c), m);
    }
  }

  lemma ChoiceNotBusy(cfg: Config, rank: Sym -> nat, busy: set<Sym>, s: Sym, c: Sym)
    requires WellFormed(cfg) && Ranked(cfg, rank) && IsMemberOf(cfg, s, c) && Below(rank(s), rank, busy)
    ensures c !in busy
  {
    MemberFacts(cfg, s, c);
    ChoiceIsRead(cfg, s, c);
    assert c in Reads(cfg, s);
  }

  lemma PickIsRead(cfg: Config, c: Sym)
    requires IsChoice(cfg, c)
    ensures PickReads(cfg, c) <= Reads(cfg, c)
  {
  }

  lemma ChoiceIsRead(cfg: Config, m: Sym, c: Sym)
    requires IsMemberOf(cfg, m, c)
    ensures c in Reads(cfg, m)
  {
  }

  lemma FocusValues(cfg: Config, run: Run, focus: Option<Sym>, s: Sym)
    requires Ranked(cfg, run.rank) && (focus.Some? ==> focus.value in cfg.info)
    ensures FocusEnv(cfg, run, focus).tri(s) ==
      if Some(s) == focus then YES else if s in cfg.info then Spec(cfg, run, s).curr else FixedValue(s)
  {
    SpecEnvValues(cfg, run.user, run.rank, s);
    hide SpecEnv, SpecCalc;
  }

  lemma FocusCompares(cfg: Config, run: Run, focus: Option<Sym>, l: Sym, r: Sym)
    requires Ranked(cfg, run.rank)
    ensures
      var env := FocusEnv(cfg, run, focus);
      env.cmp(l, r) == Compare(cfg, l, r, env.tri(l), env.tri(r))
  {
    SpecEnvCompares(cfg, run.user, run.rank, l, r);
    hide SpecEnv, SpecCalc, Compare;
  }

  /** A symbol that has been read is known, and its value is the one specified. */
  lemma KnownValue(cfg: Config, run: Run, busy: set<Sym>, b: nat, focus: Option<Sym>, s: Sym, m: Memo)
    requires Coherent(cfg, run, busy, m) && s in cfg.info && Focused(cfg, focus, busy, m) && Below(b, run.rank, busy)
    requires Some(s) == focus || (s in m.known && run.rank(s) < b)
    ensures m.fields[s].curr == FocusEnv(cfg, run, focus).tri(s)
    ensures Some(s) != focus ==> m.fields[s] == Spec(cfg, run, s)
  {
    FocusValues(cfg, run, focus, s);
    hide Spec, FocusEnv, Linked, WellFormed;
  }

  lemma NotBusy(s: Sym, rank: Sym -> nat, busy: set<Sym>)
    requires Below(rank(s) + 1, rank, busy)
    ensures s !in busy
  {
  }

  lemma ValidIsSpec(cfg: Config, run: Run, busy: set<Sym>, s: Sym, m: Memo)
    requires Coherent(cfg, run, busy, m) && s in m.valid
    ensures s in m.known && (s !in busy ==> m.fields[s] == Spec(cfg, run, s))
  {
    hide Spec, Linked, WellFormed;
  }

  // ---------- Beginning and ending ----------

  /** The user's values at the beginning of a calculation give what is specified. */
  lemma OwnStep(cfg: Config, run: Run, busy: set<Sym>, s: Sym, m: Memo)
    requires Coherent(cfg, run, busy, m) && s in cfg.info && s !in m.valid && !cfg.info[s].role.Member?
    ensures Step(cfg, m.user, s, Final(cfg, run)) == Spec(cfg, run, s)
  {
    SpecIsStep(cfg, run.user, run.rank, s);
    var env := Final(cfg, run);
    hide Final, Spec, SpecEnv, SpecCalc, Step, ChoiceStep, WellFormed;
    if IsChoice(cfg, s) {
      assert Steady(cfg, run, s, s in m.user.has);
      SteadyStep(cfg, m.user, run.user, s, env);
    } else {
      SameStep(cfg, m.user, run.user, s, env);
    }
  }

  lemma SteadyStep(cfg: Config, user1: User, user2: User, c: Sym, env: Env)
    requires IsChoice(cfg, c) && user1.picks == user2.picks && Stored(user1, c) == Stored(user2, c)
    requires (c in user1.has <==> c in user2.has) || Settled(cfg, user2, env, c)
    ensures Step(cfg, user1, c, env) == Step(cfg, user2, c, env)
  {
    hide ChoiceStep, Step;
    var with, without := user2.(has := user2.has + {c}), user2.(has := user2.has - {c});
    ChoiceStepIs(cfg, with, c, env);
    ChoiceStepIs(cfg, without, c, env);
    SameStep(cfg, user1, if c in user1.has then with else without, c, env);
    SameStep(cfg, user2, if c in user2.has then with else without, c, env);
  }

  /** The mark that a member waits for its choice is taken away. */
  lemma DropPending(cfg: Config, run: Run, busy: set<Sym>, s: Sym, m: Memo)
    requires Coherent(cfg, run, busy, m) && s in cfg.info && s !in busy
    ensures
      var m' := m.(pending := m.pending - {s});
      Coherent(cfg, run, busy + {s}, m') && Grown(cfg, run, {}, busy + {s}, m, m')
  {
    hide Written, Final, Spec, Steady, WellFormed;
  }

  /** The symbol that waited is not being calculated yet. */
  lemma NotYet(cfg: Config, run: Run, busy: set<Sym>, s: Sym, m0: Memo, m: Memo)
    requires Coherent(cfg, run, busy, m0) && s !in m0.valid && s !in busy
    requires Coherent(cfg, run, busy + {s}, m) && Grown(cfg, run, {}, busy + {s}, m0, m)
    ensures Coherent(cfg, run, busy, m) && Grown(cfg, run, {}, busy, m0, m) && s !in m.valid
  {
    hide Written, Final, Spec, Linked, WellFormed;
    assert Kept(cfg, run, s, m0, m);
  }

  /** `s` becomes valid before it is calculated. */
  lemma Begin(cfg: Config, run: Run, busy: set<Sym>, s: Sym, m: Memo)
    requires Coherent(cfg, run, busy, m) && s in cfg.info && s !in m.valid
    ensures Coherent(cfg, run, busy + {s}, m.(valid := m.valid + {s}, known := m.known + {s}, written := m.written - {s}))
  {
    hide Final, Spec, Steady, WellFormed;
  }

  /** `s` is done. */
  lemma Finish(cfg: Config, run: Run, busy: set<Sym>, s: Sym, m0: Memo, m: Memo)
    requires Coherent(cfg, run, busy, m0) && s in cfg.info && s !in m0.valid && s !in busy
    requires Coherent(cfg, run, busy + {s}, m) && m.fields[s] == Spec(cfg, run, s)
    requires s in m.written <==> Written(cfg, run.user, s, Final(cfg, run))
    requires Grown(cfg, run, {s}, busy, m0.(valid := m0.valid + {s}, known := m0.known + {s}, written := m0.written - {s}), m)
    ensures Coherent(cfg, run, busy, m)
    ensures Grown(cfg, run, {}, busy, m0, m)
  {
    hide Written, Final, Spec, Linked, WellFormed, Shape, KeptFields, SameFor;
  }

  /** Another calculation, then an update of `s` itself. */
  lemma GrownThenSet(cfg: Config, run: Run, busy: set<Sym>, s: Sym, c: Calc, mark: bool, m0: Memo, m1: Memo, m2: Memo)
    requires Ranked(cfg, run.rank) && s in busy && s in cfg.info && PlainMember(cfg, s, c) && SameFor(m0.user, m1.user, s)
    requires Grown(cfg, run, {s}, busy - {s}, m0, m1) && Grown(cfg, run, {}, busy, m1, m2)
    requires Coherent(cfg, run, busy, m2) && s in m0.valid && s in m1.fields && s in m2.fields
    ensures
      var m3 := m2.(fields := m2.fields[s := c], written := if mark then m2.written + {s} else m2.written);
      && Coherent(cfg, run, busy, m3) && Grown(cfg, run, {s}, busy - {s}, m0, m3)
      && KeptFields(cfg, run, s, m1.fields[s], m2.fields[s]) && (s in m2.written <==> s in m1.written) && SameFor(m0.user, m2.user, s)
  {
    hide Written, Final, Spec, WellFormed, Linked, Coherent, Grown, KeptFields;
    var c' := m2.fields[s := c];
    GrownKeeps(cfg, run, {}, busy, s, m1, m2);
    GrownKeeps(cfg, run, {s}, busy - {s}, s, m0, m1);
    GrownLess(cfg, run, {}, {s}, busy, busy - {s}, m1, m2);
    GrownOn(cfg, run, {s}, busy - {s}, m0, m1, m2);
    SetMarked(cfg, run, busy, s, c, mark, m2);
    GrownOn(cfg, run, {s}, busy - {s}, m0, m2, m2.(fields := c', written := if mark then m2.written + {s} else m2.written));
  }

  lemma ChoiceSet(cfg: Config, c: Sym, v: Tristate, p: Option<Sym>, m: Memo)
    requires Shape(cfg, m) && IsChoice(cfg, c) && c in m.fields
    ensures Shape(cfg, m.(fields := m.fields[c := m.fields[c].(curr := v, pick := p)]))
  {
  }

  /** Other fields, and perhaps a mark, for a symbol being calculated. */
  lemma SetMarked(cfg: Config, run: Run, busy: set<Sym>, s: Sym, c: Calc, mark: bool, m: Memo)
    requires Coherent(cfg, run, busy, m) && s in busy && PlainMember(cfg, s, c)
    ensures
      var m' := m.(fields := m.fields[s := c], written := if mark then m.written + {s} else m.written);
      Coherent(cfg, run, busy, m') && Grown(cfg, run, {s}, busy - {s}, m, m')
  {
    var m' := m.(fields := m.fields[s := c], written := if mark then m.written + {s} else m.written);
    ShapeSet(cfg, s, c, m, m');
    LinkedAnyway(cfg, run, m, m');
    hide Final, Spec, Linked, WellFormed, Written, Shape, KeptFields, SameFor;
    forall t | t in busy - {s}
      ensures Kept(cfg, run, t, m, m')
    {
      Untouched(cfg, run, t, m, m');
    }
  }

  lemma ShapeSet(cfg: Config, s: Sym, c: Calc, m: Memo, m': Memo)
    requires Shape(cfg, m) && s in cfg.info && PlainMember(cfg, s, c)
    requires m'.fields == m.fields[s := c] && m'.valid == m.valid && m'.known == m.known && m'.pending == m.pending
    ensures Shape(cfg, m')
    ensures forall t :: t in cfg.info ==> t in m.fields && t in m'.fields
  {
  }

  lemma Untouched(cfg: Config, run: Run, t: Sym, m: Memo, m': Memo)
    requires Ranked(cfg, run.rank) && t in cfg.info && t in m.fields && t in m'.fields && m'.fields[t] == m.fields[t]
    requires m'.user == m.user && m'.valid == m.valid && m'.known == m.known
    ensures Kept(cfg, run, t, m, m')
  {
    hide Spec;
  }

  /** Fields and marks do not matter to how the user's values are linked. */
  lemma LinkedAnyway(cfg: Config, run: Run, m: Memo, m': Memo)
    requires Ranked(cfg, run.rank) && Linked(cfg, run, m)
    requires m'.user == m.user && m'.valid == m.valid && m'.pending == m.pending
    ensures Linked(cfg, run, m')
  {
    hide Steady;
  }

  lemma FocusInfo(cfg: Config, focus: Option<Sym>, busy: set<Sym>, m: Memo)
    requires Focused(cfg, focus, busy, m) && focus.Some?
    ensures focus.value in cfg.info && focus.value in busy && focus.value in m.valid
  {
  }

  /** The values of a choice's members are set; it is calculated again when it is
      asked for. */
  lemma AfterSetAll(cfg: Config, run: Run, busy: set<Sym>, c: Sym, m0: Memo, m1: Memo, m2: Memo)
    requires Coherent(cfg, run, busy, m1) && Grown(cfg, run, {}, busy, m0, m1)
    requires IsChoice(cfg, c) && c in m1.pending && c !in m0.valid && c !in busy
    requires Consistent(cfg) && m2 == m1.(user := m2.user, valid := m1.valid - {c}, pending := m1.pending - {c})
    requires Decided(cfg, m1.user, m2.user, c)
    ensures Coherent(cfg, run, busy, m2) && Grown(cfg, run, {}, busy, m0, m2)
  {
    hide Written, Final, Spec, Linked, WellFormed, KeptFields, Decided, SameFor, Shape;
    LinkedDecided(cfg, run, c, m1, m2);
    ShapeDecided(cfg, c, m1, m2);
    forall s | s in busy
      ensures Kept(cfg, run, s, m0, m2)
    {
      assert Kept(cfg, run, s, m0, m1);
      DecidedElse(cfg, m0.user, m1.user, m2.user, c, s);
    }
  }

  lemma ShapeDecided(cfg: Config, c: Sym, m1: Memo, m2: Memo)
    requires Shape(cfg, m1) && m2 == m1.(user := m2.user, valid := m1.valid - {c}, pending := m1.pending - {c})
    ensures Shape(cfg, m2)
  {
  }

  lemma DecidedElse(cfg: Config, user0: User, user1: User, user2: User, c: Sym, s: Sym)
    requires IsChoice(cfg, c) && Decided(cfg, user1, user2, c) && SameFor(user0, user1, s) && s != c
    ensures SameFor(user0, user2, s)
  {
  }

  lemma LinkedDecided(cfg: Config, run: Run, c: Sym, m1: Memo, m2: Memo)
    requires Ranked(cfg, run.rank) && Linked(cfg, run, m1) && IsChoice(cfg, c) && c in m1.pending
    requires Consistent(cfg) && m2 == m1.(user := m2.user, valid := m1.valid - {c}, pending := m1.pending - {c})
    requires Decided(cfg, m1.user, m2.user, c)
    ensures Linked(cfg, run, m2)
  {
    hide Final, Settled;
  }

  /** The choice counts as set; stored values change only where they do not count. */
  ghost predicate Decided(cfg: Config, user: User, user': User, c: Sym)
    requires IsChoice(cfg, c)
  {
    && user'.has == user.has + {c} && user'.picks == user.picks
    && forall s :: s in user.has || s !in Members(cfg, c) ==> Stored(user', s) == Stored(user, s)
  }

  /** All but the value and the pick do not depend on the user. */
  lemma SpecParts(cfg: Config, run: Run, s: Sym, user: User)
    requires WellFormed(cfg) && Ranked(cfg, run.rank) && s in cfg.info
    ensures
      var c, b := Spec(cfg, run, s), Base(cfg, user, s, Final(cfg, run));
      c.(curr := NO, pick := None) == b.(curr := NO, pick := None)
    ensures !IsChoice(cfg, s) ==> Spec(cfg, run, s).pick == None
    ensures PlainMember(cfg, s, Spec(cfg, run, s))
  {
    hide SpecEnv, SpecCalc, OwnValue, Visibility, Pick, DepValue;
    SpecIsStep(cfg, run.user, run.rank, s);
  }

  lemma SpecBase(cfg: Config, run: Run, s: Sym, user: User)
    requires WellFormed(cfg) && Ranked(cfg, run.rank) && s in cfg.info
    requires !IsChoice(cfg, s) && SameFor(user, run.user, s)
    ensures Spec(cfg, run, s).curr == Base(cfg, user, s, Final(cfg, run)).curr || (cfg.info[s].role.Member? && Spec(cfg, run, s).visible == YES)
  {
    hide SpecEnv, SpecCalc, Base, ChoiceStep;
    SpecIsStep(cfg, run.user, run.rank, s);
    SameBase(cfg, user, run.user, s, Final(cfg, run));
  }

  /** The value of a member that is y for its choice. */
  lemma MemberNew(cfg: Config, run: Run, busy: set<Sym>, s: Sym, c: Sym, m: Memo)
    requires Coherent(cfg, run, busy, m) && IsMemberOf(cfg, s, c) && Spec(cfg, run, s).visible == YES
    requires IsChoice(cfg, c) && c in m.fields && c in m.known && c !in busy
    ensures Spec(cfg, run, s).curr == if m.fields[c].pick == Some(s) then YES else NO
  {
    hide SpecEnv, SpecCalc, Base, ChoiceStep, WellFormed, Linked, Shape, Spec, Final;
    assert Shape(cfg, m) && WellFormed(cfg) && Ranked(cfg, run.rank);
    ShapeFields(cfg, c, m);
    assert m.fields[c] == Spec(cfg, run, c);
    hide Coherent;
    SpecMember(cfg, run, s, c);
  }

  lemma SpecMember(cfg: Config, run: Run, s: Sym, c: Sym)
    requires WellFormed(cfg) && Ranked(cfg, run.rank) && IsMemberOf(cfg, s, c) && IsChoice(cfg, c) && Spec(cfg, run, s).visible == YES
    ensures Spec(cfg, run, s).curr == if Spec(cfg, run, c).pick == Some(s) then YES else NO
  {
    SpecIsStep(cfg, run.user, run.rank, s);
    SpecIsStep(cfg, run.user, run.rank, c);
    hide SpecEnv, SpecCalc, Base, ChoiceStep, WellFormed;
    ChoiceStepIs(cfg, run.user, c, Final(cfg, run));
  }

  /** The value of any other symbol. */
  lemma OwnNew(cfg: Config, run: Run, user: User, s: Sym, c: Calc, own: Tristate)
    requires WellFormed(cfg) && Ranked(cfg, run.rank) && s in cfg.info
    requires c.(curr := NO, pick := None) == Spec(cfg, run, s).(curr := NO, pick := None)
    requires own == OwnValue(user, s, cfg.info[s], c.visible, c.imp, Final(cfg, run))
    ensures
      PromoteIf(ActsAsBool(cfg, s) || c.imp == YES, TriOr(own, c.rev)) == Base(cfg, user, s, Final(cfg, run)).curr
  {
    SpecParts(cfg, run, s, user);
    hide Final, Spec, SpecEnv, SpecCalc, OwnValue, Visibility, DepValue, WellFormed, Ranked;
  }

  /** Whether a line is asked for, by the fields. */
  lemma WrittenParts(cfg: Config, run: Run, s: Sym, c: Calc)
    requires WellFormed(cfg) && Ranked(cfg, run.rank) && s in cfg.info
    requires c.(curr := NO, pick := None) == Spec(cfg, run, s).(curr := NO, pick := None)
    ensures
      Written(cfg, run.user, s, Final(cfg, run)) <==>
        || c.visible != NO || c.rev != NO
        || (!IsChoice(cfg, s) && (DefaultValue(cfg.info[s].defaults, Final(cfg, run)) != NO || c.imp != NO))
  {
    SpecParts(cfg, run, s, run.user);
    hide Final, Spec, SpecEnv, SpecCalc, Base, DefaultValue, WellFormed, Ranked;
  }

  lemma NotChoiceSame(cfg: Config, run: Run, busy: set<Sym>, s: Sym, m: Memo)
    requires Coherent(cfg, run, busy, m) && s in cfg.info && !IsChoice(cfg, s)
    ensures SameFor(m.user, run.user, s) && WellFormed(cfg)
  {
    hide Final, Spec, Steady;
  }

  lemma WellFormedOk(cfg: Config, run: Run, busy: set<Sym>, m: Memo)
    requires Coherent(cfg, run, busy, m)
    ensures WellFormed(cfg) && Ranked(cfg, run.rank)
  {
  }

  lemma NotConfigured(cfg: Config, s: Sym, c: Sym)
    requires WellFormed(cfg) && !IsTriKind(s) && c in cfg.info
    ensures s !in cfg.info && s != c
  {
  }

  /** Once the condition of a member's prompt was found not to be n, its choice
      has been read. */
  lemma PromptKnows(cfg: Config, run: Run, busy: set<Sym>, b: nat, focus: Option<Sym>, s: Sym, c: Sym, p: Option<Expr>, m: Memo)
    requires Coherent(cfg, run, busy, m) && IsMemberOf(cfg, s, c) && p in cfg.info[s].prompts
    requires Below(b, run.rank, busy) && ReadsBelow(cfg, SymsOfOpt(p), run.rank, b, focus) && Focused(cfg, focus, busy, m)
    requires Known(cfg, SymsOfOpt(p), focus, m) && (focus.Some? ==> focus.value == c)
    ensures
      var env := FocusEnv(cfg, run, focus);
      p.Some? && c in cfg.info && (EvalOpt(p, env) != NO ==> m.fields[c].curr == env.tri(c) && Known(cfg, {c}, focus, m))
  {
    hide Coherent, FocusEnv, BoundedBy, WellFormed, Linked, Spec, Focused, Below;
    WellFormedOk(cfg, run, busy, m);
    MemberFacts(cfg, s, c);
    NotConfigured(cfg, SYM_NO, c);
    var env := FocusEnv(cfg, run, focus);
    FocusValues(cfg, run, focus, SYM_NO);
    if EvalOpt(p, env) != NO {
      BoundedReads(p.value, c, c.kind.TristateKind? && !s.kind.TristateKind?, env);
      KnownValue(cfg, run, busy, b, focus, c, m);
    }
  }

  ghost function SeqSet(q: seq<Sym>): set<Sym> {
    set x | x in q
  }

  /** The members are remembered as visible as they will be. */
  ghost predicate AllShown(cfg: Config, run: Run, members: seq<Sym>, m: Memo)
    requires Ranked(cfg, run.rank)
  {
    forall x :: x in members ==> x in cfg.info && x in m.fields && m.fields[x].visible == Spec(cfg, run, x).visible
  }

  /** The user has a value for every member that is visible in the end. */
  ghost predicate AllAnswered(cfg: Config, run: Run, members: seq<Sym>)
    requires Ranked(cfg, run.rank)
  {
    forall x :: x in members ==> x in cfg.info && (Spec(cfg, run, x).visible != NO ==> x in run.user.has)
  }

  lemma AnsweredMore(cfg: Config, run: Run, busy: set<Sym>, members: seq<Sym>, x: Sym, m: Memo)
    requires Coherent(cfg, run, busy, m) && AllShown(cfg, run, members + [x], m) && x in m.fields
    requires x in cfg.info && !IsChoice(cfg, x)
    ensures AllAnswered(cfg, run, members + [x]) <==>
      AllAnswered(cfg, run, members) && (m.fields[x].visible != NO ==> x in m.user.has)
  {
    hide Spec, WellFormed;
    assert SameFor(m.user, run.user, x);
    assert x in members + [x];
    assert forall y :: y in members + [x] <==> y in members || y == x;
  }

  lemma AnsweredNone(cfg: Config, run: Run)
    requires Ranked(cfg, run.rank)
    ensures AllAnswered(cfg, run, [])
  {
  }

  lemma StillHas(cfg: Config, run: Run, own: set<Sym>, keep: set<Sym>, c: Sym, m0: Memo, m1: Memo)
    requires Ranked(cfg, run.rank) && Grown(cfg, run, own, keep, m0, m1) && c in keep
    ensures c in m1.user.has <==> c in m0.user.has
  {
    hide Written, Final, Spec, KeptFields;
    assert Kept(cfg, run, c, m0, m1);
  }

  lemma ShownStays(cfg: Config, run: Run, keep: set<Sym>, members: seq<Sym>, m0: Memo, m1: Memo)
    requires Ranked(cfg, run.rank) && Grown(cfg, run, {}, keep, m0, m1) && SeqSet(members) <= keep && AllShown(cfg, run, members, m0)
    ensures AllShown(cfg, run, members, m1)
  {
    hide Final, Spec, Written;
    forall x | x in members
      ensures x in cfg.info && x in m1.fields && m1.fields[x].visible == Spec(cfg, run, x).visible
    {
      assert x in SeqSet(members);
      assert Kept(cfg, run, x, m0, m1);
    }
  }

  /** A member is as visible to its choice at y as it will be in the end: the
      choice ends at y, or at n where no member is visible in either case. */
  ghost predicate SeenRight(cfg: Config, run: Run, c: Sym)
    requires Ranked(cfg, run.rank) && IsChoice(cfg, c)
  {
    forall x :: x in Members(cfg, c) ==> x in cfg.info && Visibility(cfg, x, FocusEnv(cfg, run, Some(c))) == Spec(cfg, run, x).visible
  }

  lemma MembersSeenRight(cfg: Config, run: Run, user: User, c: Sym)
    requires WellFormed(cfg) && Ranked(cfg, run.rank) && IsChoice(cfg, c)
    requires Base(cfg, user, c, Final(cfg, run)).curr == YES && Step(cfg, user, c, Final(cfg, run)) == Spec(cfg, run, c)
    ensures SeenRight(cfg, run, c)
  {
    hide SpecEnv, SpecCalc, Base, Visibility, WellFormed, Solves, Ranked, Spec, Final, Pick, Step, TargetVisible;
    FinalSolves(cfg, run, c);
    ChoiceFalls(cfg, run, user, c);
    forall x | x in Members(cfg, c)
      ensures x in cfg.info && Visibility(cfg, x, FocusEnv(cfg, run, Some(c))) == Spec(cfg, run, x).visible
    {
      MembersAre(cfg, c, x);
      MemberSpec(cfg, run, x);
      if Final(cfg, run).tri(c) == YES {
        TargetIsMember(cfg, run.user, Final(cfg, run), c, x);
      } else {
        VisibleMember(cfg, run.user, Final(cfg, run), x, c);
      }
      TargetOf(cfg, Members(cfg, c), x, FocusEnv(cfg, run, Some(c)));
    }
  }

  lemma TargetOf(cfg: Config, members: seq<Sym>, x: Sym, env: Env)
    requires x in members && x in cfg.info
    ensures TargetVisible(cfg, members, x, env) == Visibility(cfg, x, env)
  {
  }

  lemma FinalSolves(cfg: Config, run: Run, c: Sym)
    requires WellFormed(cfg) && Ranked(cfg, run.rank) && c in cfg.info
    ensures Solves(cfg, run.user, Final(cfg, run)) && Final(cfg, run).tri(c) == Spec(cfg, run, c).curr
  {
    hide SpecEnv, SpecCalc, WellFormed, Ranked, Solves;
    SpecSolves(cfg, run.user, run.rank);
    SpecEnvValues(cfg, run.user, run.rank, c);
  }

  /** A choice that could be y is y, or n with no member that it could pick. */
  lemma ChoiceFalls(cfg: Config, run: Run, user: User, c: Sym)
    requires WellFormed(cfg) && Ranked(cfg, run.rank) && IsChoice(cfg, c) && Final(cfg, run).tri(c) == Spec(cfg, run, c).curr
    requires Base(cfg, user, c, Final(cfg, run)).curr == YES && Step(cfg, user, c, Final(cfg, run)) == Spec(cfg, run, c)
    ensures
      var v := Final(cfg, run).tri(c);
      v == YES || (v == NO && forall x :: x in Members(cfg, c) ==> TargetVisible(cfg, Members(cfg, c), x, FocusEnv(cfg, run, Some(c))) == NO)
  {
    hide SpecEnv, SpecCalc, Base, TargetVisible, WellFormed, Ranked, Spec, Final, DefaultPick;
  }

  lemma MemberSpec(cfg: Config, run: Run, s: Sym)
    requires WellFormed(cfg) && Ranked(cfg, run.rank) && s in cfg.info
    ensures Spec(cfg, run, s).visible == Visibility(cfg, s, Final(cfg, run))
  {
    SpecParts(cfg, run, s, run.user);
    hide Final, Spec, Visibility;
  }

  /** While the choice picks, its members count as being calculated too. */
  lemma Crowded(cfg: Config, run: Run, busy: set<Sym>, c: Sym, m: Memo)
    requires Coherent(cfg, run, busy, m) && IsChoice(cfg, c) && c in busy && c in m.valid && Below(run.rank(c), run.rank, busy)
    requires m.fields[c].curr == YES && m.fields[c] == Base(cfg, m.user, c, Final(cfg, run))
    requires Step(cfg, m.user, c, Final(cfg, run)) == Spec(cfg, run, c)
    ensures
      var crowd := busy + SeqSet(Members(cfg, c));
      && Coherent(cfg, run, crowd, m) && Below(run.rank(c), run.rank, crowd) && Focused(cfg, Some(c), crowd, m)
    ensures SeenRight(cfg, run, c)
  {
    hide Final, Spec, Linked, WellFormed, Base, Step, SeenRight, ReadsBelow, Ranked, Shape, Focused;
    assert Shape(cfg, m) && Ranked(cfg, run.rank) && WellFormed(cfg);
    OwnPickReads(cfg, run.rank, c);
    MembersSeenRight(cfg, run, m.user, c);
    ShapeFields(cfg, c, m);
    FocusOn(cfg, c, busy + SeqSet(Members(cfg, c)), m);
  }

  lemma ShapeFields(cfg: Config, c: Sym, m: Memo)
    requires Shape(cfg, m) && c in cfg.info
    ensures c in m.fields
  {
  }

  lemma FocusOn(cfg: Config, c: Sym, busy: set<Sym>, m: Memo)
    requires c in cfg.info && c in busy && c in m.valid && c in m.fields && m.fields[c].curr == YES
    ensures Focused(cfg, Some(c), busy, m)
  {
  }

  /** A choice found to be new no longer counts as set. */
  lemma FoundNew(cfg: Config, run: Run, busy: set<Sym>, c: Sym, m: Memo, user: User)
    requires Coherent(cfg, run, busy, m) && IsChoice(cfg, c) && c in m.valid
    requires user == m.user || user == m.user.(has := m.user.has - {c})
    ensures
      var m' := m.(user := user);
      Coherent(cfg, run, busy, m') && Grown(cfg, run, {c}, busy - {c}, m, m')
  {
    hide Final, Spec, Linked, WellFormed, Written, Shape, SameFor, KeptFields;
    LinkedFound(cfg, run, c, m, user);
    hide Coherent;
    CoherentShape(cfg, run, busy, m);
    CoherentFor(cfg, run, busy, m, m.(user := user));
    forall s | s in busy - {c}
      ensures Kept(cfg, run, s, m, m.(user := user))
    {
      ShapeFields(cfg, s, m);
      FoundElse(m.user, user, c, s);
      KeptAnyway(cfg, run, s, m.fields[s]);
    }
  }

  lemma FoundElse(user0: User, user: User, c: Sym, s: Sym)
    requires user == user0 || user == user0.(has := user0.has - {c})
    requires s != c
    ensures SameFor(user0, user, s)
  {
  }

  lemma KeptAnyway(cfg: Config, run: Run, s: Sym, c: Calc)
    requires Ranked(cfg, run.rank) && s in cfg.info
    ensures KeptFields(cfg, run, s, c, c)
  {
  }

  /** The user's values matter to a state only through their link. */
  lemma CoherentFor(cfg: Config, run: Run, busy: set<Sym>, m: Memo, m': Memo)
    requires Coherent(cfg, run, busy, m) && Linked(cfg, run, m') && m' == m.(user := m'.user)
    ensures Coherent(cfg, run, busy, m')
  {
    hide Final, Spec, Linked, WellFormed;
  }

  lemma LinkedFound(cfg: Config, run: Run, c: Sym, m: Memo, user: User)
    requires Ranked(cfg, run.rank) && Linked(cfg, run, m) && IsChoice(cfg, c) && c in m.valid
    requires user == m.user || user == m.user.(has := m.user.has - {c})
    ensures Linked(cfg, run, m.(user := user))
  {
    hide Final, Spec, Settled, WellFormed;
  }

  lemma UncrowdedGrown(cfg: Config, run: Run, busy: set<Sym>, c: Sym, m0: Memo, m1: Memo, m2: Memo, user: User, m3: Memo)
    requires Ranked(cfg, run.rank) && IsChoice(cfg, c) && c in m0.valid && c in busy
    requires Grown(cfg, run, {c}, busy - {c}, m0, m1)
    requires
      var crowd := busy + SeqSet(Members(cfg, c));
      && Grown(cfg, run, {}, crowd, m1, m2) && Grown(cfg, run, {c}, crowd - {c}, m2, m2.(user := user))
      && Grown(cfg, run, {}, crowd, m2.(user := user), m3)
    ensures Grown(cfg, run, {c}, busy - {c}, m0, m3)
    ensures c in m1.valid ==> (c in m3.written <==> c in m1.written)
  {
    var crowd := busy + SeqSet(Members(cfg, c));
    var m2' := m2.(user := user);
    GrownKeeps(cfg, run, {}, crowd, c, m1, m2);
    GrownKeeps(cfg, run, {}, crowd, c, m2', m3);
    GrownKeeps(cfg, run, {c}, busy - {c}, c, m0, m1);
    GrownLess(cfg, run, {}, {c}, crowd, busy - {c}, m1, m2);
    GrownLess(cfg, run, {c}, {c}, crowd - {c}, busy - {c}, m2, m2');
    GrownLess(cfg, run, {}, {c}, crowd, busy - {c}, m2', m3);
    GrownOn(cfg, run, {c}, busy - {c}, m0, m1, m2);
    GrownOn(cfg, run, {c}, busy - {c}, m0, m2, m2');
    GrownOn(cfg, run, {c}, busy - {c}, m0, m2', m3);
  }

  /** The members are no longer held back. */
  lemma Uncrowded(cfg: Config, run: Run, busy: set<Sym>, c: Sym, m1: Memo, m2: Memo, user: User, m3: Memo)
    requires IsChoice(cfg, c) && Coherent(cfg, run, busy, m1) && c in busy
    requires
      var crowd := busy + SeqSet(Members(cfg, c));
      && Grown(cfg, run, {}, crowd, m1, m2) && Grown(cfg, run, {}, crowd, m2.(user := user), m3)
      && Coherent(cfg, run, crowd, m3)
    ensures Coherent(cfg, run, busy, m3)
    ensures KeptFields(cfg, run, c, m1.fields[c], m3.fields[c])
  {
    hide Final, Spec, Linked, WellFormed, Written, SameFor;
    var crowd := busy + SeqSet(Members(cfg, c));
    var m2' := m2.(user := user);
    forall s | s in crowd
      ensures s in cfg.info && (s in m3.known <==> s in m1.known) && KeptFields(cfg, run, s, m1.fields[s], m3.fields[s])
    {
      assert Kept(cfg, run, s, m1, m2) && Kept(cfg, run, s, m2', m3);
    }
  }

  /** What the choice ends with. */
  lemma PickedRight(cfg: Config, run: Run, busy: set<Sym>, c: Sym, m0: Memo, m1: Memo, m2: Memo, user: User, m3: Memo, p: Option<Sym>)
    requires IsChoice(cfg, c) && Coherent(cfg, run, busy, m1) && c in busy && c in m0.valid && c in m1.valid
    requires c in m1.fields && c in m3.fields && Ranked(cfg, run.rank) && Grown(cfg, run, {c}, busy - {c}, m0, m1)
    requires m1.fields[c].curr == YES && m1.fields[c] == Base(cfg, m1.user, c, Final(cfg, run))
    requires Step(cfg, m1.user, c, Final(cfg, run)) == Spec(cfg, run, c)
    requires
      var crowd := busy + SeqSet(Members(cfg, c));
      && Grown(cfg, run, {}, crowd, m1, m2) && Grown(cfg, run, {c}, crowd - {c}, m2, m2.(user := user))
      && Grown(cfg, run, {}, crowd, m2.(user := user), m3) && Coherent(cfg, run, crowd, m3)
    requires p == PickWhenYes(cfg, user, c, FocusEnv(cfg, run, Some(c))) && user.picks == m3.user.picks
    ensures
      var m4 := m3.(fields := m3.fields[c := m3.fields[c].(curr := if p.None? then NO else YES, pick := p)]);
      && Coherent(cfg, run, busy, m4) && Grown(cfg, run, {c}, busy - {c}, m0, m4) && m4.fields[c] == Spec(cfg, run, c)
      && (c in m4.written <==> c in m1.written)
  {
    hide Coherent, Grown, Final, Spec, Base, Step, WellFormed, Ranked, PickWhenYes, FocusEnv, KeptFields;
    UncrowdedGrown(cfg, run, busy, c, m0, m1, m2, user, m3);
    Uncrowded(cfg, run, busy, c, m1, m2, user, m3);
    WellFormedOk(cfg, run, busy, m1);
    SamePicks(cfg, run, busy, m1, m3);
    PickedIsSpec(cfg, run, m1.user, user, c, m3.fields[c], p);
    SpecChoice(cfg, run, busy, c, m0, m3);
  }

  lemma PickedIsSpec(cfg: Config, run: Run, user: User, user': User, c: Sym, c1: Calc, p: Option<Sym>)
    requires WellFormed(cfg) && Ranked(cfg, run.rank) && IsChoice(cfg, c) && user'.picks == user.picks
    requires Base(cfg, user, c, Final(cfg, run)).curr == YES && Step(cfg, user, c, Final(cfg, run)) == Spec(cfg, run, c)
    requires KeptFields(cfg, run, c, Base(cfg, user, c, Final(cfg, run)), c1)
    requires p == PickWhenYes(cfg, user', c, FocusEnv(cfg, run, Some(c)))
    ensures c1.(curr := if p.None? then NO else YES, pick := p) == Spec(cfg, run, c)
  {
    SpecParts(cfg, run, c, user);
    hide Final, Spec, Base, WellFormed, Ranked, TargetVisible, DefaultPick;
  }

  lemma MembersAre(cfg: Config, c: Sym, x: Sym)
    requires WellFormed(cfg) && IsChoice(cfg, c) && x in Members(cfg, c)
    ensures IsMemberOf(cfg, x, c)
  {
  }

  lemma NoneShown(cfg: Config, run: Run, m: Memo)
    requires Ranked(cfg, run.rank)
    ensures AllShown(cfg, run, [], m)
  {
  }

  /** A member's visibility set to what it will be. */
  lemma ShowOne(cfg: Config, run: Run, crowd: set<Sym>, x: Sym, t: Tristate, m: Memo)
    requires Coherent(cfg, run, crowd, m) && x in crowd && x in cfg.info && x in m.fields && t == Spec(cfg, run, x).visible
    ensures
      var m' := m.(fields := m.fields[x := m.fields[x].(visible := t)]);
      Coherent(cfg, run, crowd, m') && Grown(cfg, run, {}, crowd, m, m')
  {
    hide Final, Spec, Linked, WellFormed, Written, Shape, SameFor, Coherent;
    var m' := m.(fields := m.fields[x := m.fields[x].(visible := t)]);
    CoherentShape(cfg, run, crowd, m);
    PlainStays(cfg, x, t, m);
    ShapeSet(cfg, x, m.fields[x].(visible := t), m, m');
    SetMarked(cfg, run, crowd, x, m.fields[x].(visible := t), false, m);
    assert m' == m.(fields := m.fields[x := m.fields[x].(visible := t)], written := m.written);
    SameForRefl(m.user, x);
    forall s | s in crowd
      ensures Kept(cfg, run, s, m, m')
    {
      if s != x { Untouched(cfg, run, s, m, m'); }
    }
  }

  lemma CoherentShape(cfg: Config, run: Run, busy: set<Sym>, m: Memo)
    requires Coherent(cfg, run, busy, m)
    ensures Shape(cfg, m) && WellFormed(cfg) && Ranked(cfg, run.rank) && busy <= cfg.info.Keys
  {
  }

  lemma PlainStays(cfg: Config, x: Sym, t: Tristate, m: Memo)
    requires Shape(cfg, m) && x in m.fields
    ensures PlainMember(cfg, x, m.fields[x].(visible := t))
  {
  }

  /** One more member's visibility is calculated and remembered. */
  lemma OneShown(cfg: Config, run: Run, crowd: set<Sym>, c: Sym, before: seq<Sym>, x: Sym, m0: Memo, m1: Memo, m2: Memo, t: Tristate)
    requires Ranked(cfg, run.rank) && Grown(cfg, run, {}, crowd, m0, m1) && Grown(cfg, run, {}, crowd, m1, m2)
    requires Coherent(cfg, run, crowd, m2) && x in crowd && SeqSet(before) <= crowd && AllShown(cfg, run, before, m1)
    requires Focused(cfg, Some(c), crowd, m1) && x in cfg.info && x in m2.fields && t == Spec(cfg, run, x).visible
    ensures
      var m3 := m2.(fields := m2.fields[x := m2.fields[x].(visible := t)]);
      && Coherent(cfg, run, crowd, m3) && Grown(cfg, run, {}, crowd, m0, m3) && Focused(cfg, Some(c), crowd, m3)
      && AllShown(cfg, run, before + [x], m3)
  {
    hide Final, Spec, Coherent, Written, Grown, Focused, Ranked;
    var m3 := m2.(fields := m2.fields[x := m2.fields[x].(visible := t)]);
    ShowOne(cfg, run, crowd, x, t, m2);
    GrownTwice(cfg, run, crowd, m1, m2, m3);
    GrownTwice(cfg, run, crowd, m0, m1, m3);
    ShownStays(cfg, run, crowd, before, m1, m3);
    FocusedStays(cfg, run, Some(c), crowd, m1, m3);
  }

  /** The choice has its value and pick. */
  lemma SpecChoice(cfg: Config, run: Run, busy: set<Sym>, c: Sym, m0: Memo, m: Memo)
    requires IsChoice(cfg, c) && Coherent(cfg, run, busy, m) && c in busy && c in m0.valid && Grown(cfg, run, {c}, busy - {c}, m0, m)
    ensures
      var m' := m.(fields := m.fields[c := Spec(cfg, run, c)]);
      Coherent(cfg, run, busy, m') && Grown(cfg, run, {c}, busy - {c}, m0, m')
  {
    hide Final, Spec, Coherent, Written, Grown;
    WellFormedOk(cfg, run, busy, m);
    SetMarked(cfg, run, busy, c, Spec(cfg, run, c), false, m);
    GrownOn(cfg, run, {c}, busy - {c}, m0, m, m.(fields := m.fields[c := Spec(cfg, run, c)]));
  }

  lemma MemberThere(cfg: Config, c: Sym, x: Sym, m: Memo)
    requires Shape(cfg, m) && IsChoice(cfg, c) && x in Members(cfg, c)
    ensures x in cfg.info
  {
  }

  lemma ChoiceThere(cfg: Config, s: Sym, m: Memo)
    requires Shape(cfg, m) && s in cfg.info && cfg.info[s].role.Member?
    ensures cfg.info[s].role.choice in m.fields
  {
  }

  lemma KnownIsSpec(cfg: Config, run: Run, m: Memo)
    requires Coherent(cfg, run, {}, m)
    ensures forall s :: s in m.known ==> s in cfg.info && s in m.fields && m.fields[s] == Spec(cfg, run, s)
  {
    hide Spec, Linked, WellFormed;
  }

  lemma SamePicks(cfg: Config, run: Run, busy: set<Sym>, m0: Memo, m1: Memo)
    requires Coherent(cfg, run, busy, m0) && Coherent(cfg, run, busy, m1)
    ensures m0.user.picks == m1.user.picks
  {
    hide Spec, WellFormed, Shape;
  }

  lemma ShowingRight(cfg: Config, run: Run, c: Sym, m: Memo, t: Sym)
    requires Ranked(cfg, run.rank) && IsChoice(cfg, c) && SeenRight(cfg, run, c) && AllShown(cfg, run, Members(cfg, c), m)
    ensures
      var members := Members(cfg, c);
      (if t in members && t in m.fields then m.fields[t].visible else cfg.seen(t))
      == TargetVisible(cfg, members, t, FocusEnv(cfg, run, Some(c)))
  {
    hide Spec, FocusEnv, Visibility, Ranked;
  }

  lemma PickAt(cfg: Config, members: seq<Sym>, picks: seq<PickDefault>, i: nat, env: Env)
    requires i < |picks|
    ensures FirstDefault(cfg, members, picks[i..], env) ==
      if EvalOpt(picks[i].cond, env) != NO && TargetVisible(cfg, members, picks[i].target, env) != NO then Some(picks[i].target)
      else FirstDefault(cfg, members, picks[i + 1..], env)
    ensures SymsOfPicks(picks[i..]) == SymsOfOpt(picks[i].cond) + SymsOfPicks(picks[i + 1..])
  {
    hide TargetVisible;
    assert picks[i..][1..] == picks[i + 1..];
  }

  lemma NoPicks(cfg: Config, members: seq<Sym>, env: Env)
    ensures FirstDefault(cfg, members, [], env) == None
  {
  }

  lemma VisibleAt(cfg: Config, members: seq<Sym>, rest: seq<Sym>, i: nat, env: Env)
    requires i < |rest|
    ensures FirstVisible(cfg, members, rest[i..], env) ==
      if TargetVisible(cfg, members, rest[i], env) != NO then Some(rest[i]) else FirstVisible(cfg, members, rest[i + 1..], env)
  {
    hide TargetVisible;
    assert rest[i..][1..] == rest[i + 1..];
  }

  lemma NoneVisible(cfg: Config, members: seq<Sym>, env: Env)
    ensures FirstVisible(cfg, members, [], env) == None
  {
  }

  /** What is left to do when a calculation returns is no more than before. */
  lemma Shrinks(keys: set<Sym>, pending0: set<Sym>, pending1: set<Sym>, valid0: set<Sym>, valid1: set<Sym>)
    requires pending1 <= pending0 && valid0 <= valid1
    ensures pending1 < pending0 || pending1 == pending0
    ensures keys - valid1 < keys - valid0 || keys - valid1 == keys - valid0
  {
  }

  lemma SameForRefl(user: User, s: Sym)
    ensures SameFor(user, user, s)
  {
  }

  /** The fields of `s` with its value, all but what it picks if it is a choice. */
  lemma ValueDone(cfg: Config, run: Run, s: Sym, user1: User, user3: User, user5: User, v: Tristate, c3: Calc, c4: Calc, c5: Calc)
    requires WellFormed(cfg) && Ranked(cfg, run.rank) && s in cfg.info
    requires SameFor(user1, user3, s) && SameFor(user1, user5, s)
    requires !cfg.info[s].role.Member? ==> Step(cfg, user1, s, Final(cfg, run)) == Spec(cfg, run, s)
    requires v == (if IsChoice(cfg, s) then Base(cfg, user3, s, Final(cfg, run)) else Spec(cfg, run, s)).curr
    requires c3 == Spec(cfg, run, s).(curr := NO, pick := None) && KeptFields(cfg, run, s, c3, c4) && c5 == c4.(curr := v)
    ensures IsChoice(cfg, s) && v == YES ==>
      c5 == Base(cfg, user5, s, Final(cfg, run)) && Step(cfg, user5, s, Final(cfg, run)) == Spec(cfg, run, s)
    ensures !(IsChoice(cfg, s) && v == YES) ==> c5 == Spec(cfg, run, s)
  {
    SpecParts(cfg, run, s, user1);
    hide Final, Spec, Base, WellFormed, Ranked;
    if IsChoice(cfg, s) {
      SameBase(cfg, user1, user3, s, Final(cfg, run));
      SameBase(cfg, user1, user5, s, Final(cfg, run));
      SameStep(cfg, user1, user5, s, Final(cfg, run));
      BasePick(cfg, user1, s, Final(cfg, run));
    }
  }

  lemma BasePick(cfg: Config, user: User, s: Sym, env: Env)
    requires s in cfg.info
    ensures Base(cfg, user, s, env).pick == None
  {
  }

  // ---------- Starting over ----------

  /** No choice waits for its members' values to be set. */
  ghost predicate NothingWaits(cfg: Config, m: Memo) {
    forall c :: c in m.pending ==> !IsChoice(cfg, c)
  }

  ghost function Waiting(cfg: Config, m: Memo): set<Sym> {
    set c | c in m.pending && IsChoice(cfg, c)
  }

  /** With nothing valid, calculations are specified for the user's values, the
      choices that wait counting as set: their values come out the same whether
      they do already or will. */
  lemma WaitingStart(cfg: Config, run: Run, m: Memo)
    requires WellFormed(cfg) && Ranked(cfg, run.rank) && Shape(cfg, m) && m.valid == m.known == {}
    requires run.user == m.user.(has := m.user.has + Waiting(cfg, m))
    requires forall c :: c in Waiting(cfg, m) ==> Settled(cfg, run.user, Final(cfg, run), c)
    ensures Coherent(cfg, run, {}, m)
  {
    hide Final, Spec, Settled, WellFormed, Ranked;
    assert forall s :: s !in Waiting(cfg, m) ==> SameFor(m.user, run.user, s);
  }

  lemma FreshStart(cfg: Config, run: Run, m: Memo)
    requires WellFormed(cfg) && Ranked(cfg, run.rank) && Shape(cfg, m) && m.valid == m.known == {}
    requires run.user == m.user && NothingWaits(cfg, m)
    ensures Coherent(cfg, run, {}, m)
  {
    assert Waiting(cfg, m) == {};
    assert m.user.has + {} == m.user.has;
    WaitingStart(cfg, run, m);
  }

  /** The first calculation of a choice that waits, before its value counts, and
      the second, when it does, give the same exactly if its prompt is hidden or
      raising alone gives what the stored value gives, or nothing can be picked. */
  lemma SettledExactly(cfg: Config, user: User, env: Env, c: Sym)
    requires IsChoice(cfg, c)
    ensures
      var b := Base(cfg, user, c, env);
      var promote := ActsAsBool(cfg, c) || b.imp == YES;
      var first, second := PromoteIf(promote, b.rev), PromoteIf(promote, TriOr(TriAnd(Stored(user, c), b.visible), b.rev));
      Settled(cfg, user, env, c) <==> first == second || (first == NO && second == YES && Pick(cfg, user, c, env).None?)
  {
    hide Visibility, DepValue, PickWhenYes, SetTri;
    var with, without := user.(has := user.has + {c}), user.(has := user.has - {c});
    SamePick(cfg, user, with, c, env);
    SamePick(cfg, user, without, c, env);
  }

  /** Both kinds exist: a visible choice with a member to pick, for which y is
      stored, is settled exactly if something raises it. */
  lemma OptionalChoiceIsUnsettled(cfg: Config, user: User, env: Env, revDep: Option<Expr>)
    requires cfg.info ==
      map[C := SymInfo([None], None, revDep, None, [], Choice([M], [])), M := SymInfo([Some(Symbol(C))], None, None, None, [], Member(C))]
    requires Stored(user, C) == YES
    ensures Settled(cfg, user, env, C) <==> DepValue(revDep, NO, env) != NO
  {
    hide Settled;
    var env1 := SetTri(cfg, env, C, YES);
    assert cfg.info[C].prompts[1..] == [] && cfg.info[M].prompts[1..] == [];
    assert MaxVisible(cfg.info[C].prompts, false, env) == YES;
    assert MaxVisible(cfg.info[M].prompts, HidesMod(cfg, M, env1), env1) == YES;
    assert TargetVisible(cfg, [M], M, env1) == YES;
    assert Pick(cfg, user, C, env).Some?;
    SettledExactly(cfg, user, env, C);
  }

  // ---------- Assignments ----------

  /** The run for the answers that are left. */
  ghost function Left(run: Run, m: Memo): Run {
    run.(user := m.user)
  }

  /** Whether setting `s` will be obeyed is seen by the calculation for the answers
      that are left. */
  lemma SettingObeyed(cfg: Config, run: Run, m: Memo, s: Sym, val: Tristate, beside: set<Sym>)
    requires WellFormed(cfg) && Ranked(cfg, run.rank) && s in cfg.info
    requires cfg.info[s].role.Member? ==> cfg.info[s].defaults == []
    requires cfg.info[s].role.Member? ==> IsChoice(cfg, cfg.info[s].role.choice) && forall x :: x in beside ==> x in Members(cfg, cfg.info[s].role.choice)
    ensures
      Spec(cfg, run.(user := Assigned(cfg, m.user, s, val, beside)), s).curr == val
      <==> Obeys(cfg, m.user, Final(cfg, Left(run, m)), s, val, beside)
  {
    var run' := run.(user := Assigned(cfg, m.user, s, val, beside));
    hide WellFormed, Solves, Ranked, Spec, SpecEnv, SpecCalc, Step, Final, Obeys, Assigned;
    FinalSolves(cfg, Left(run, m), s);
    FinalSolves(cfg, run', s);
    if cfg.info[s].role.Member? {
      forall x | x in beside ensures IsMemberOf(cfg, x, cfg.info[s].role.choice) {
        MembersAre(cfg, cfg.info[s].role.choice, x);
      }
    }
    TakesEffectExactly(cfg, run.rank, m.user, Final(cfg, Left(run, m)), Final(cfg, run'), s, val, beside);
  }

  /** So an accepted value is, wherever the fields that it was checked against are
      those for the answers that are left. */
  lemma AcceptedObeyed(cfg: Config, run: Run, m: Memo, s: Sym, val: Tristate, beside: set<Sym>)
    requires WellFormed(cfg) && Ranked(cfg, run.rank) && s in cfg.info && s in m.fields
    requires InRange(cfg, s, m.fields[s], val) && m.fields[s] == Spec(cfg, Left(run, m), s)
    requires cfg.info[s].role.Member? ==> IsChoice(cfg, cfg.info[s].role.choice) && forall x :: x in beside ==> x in Members(cfg, cfg.info[s].role.choice)
    ensures
      Spec(cfg, run.(user := Assigned(cfg, m.user, s, val, beside)), s).curr == val
      || (IsChoice(cfg, s) && val == YES && Pick(cfg, m.user, s, Final(cfg, Left(run, m))).None?)
  {
    var run' := run.(user := Assigned(cfg, m.user, s, val, beside));
    var env, env' := Final(cfg, Left(run, m)), Final(cfg, run');
    SpecIsStep(cfg, m.user, run.rank, s);
    hide WellFormed, Solves, Ranked, Spec, SpecEnv, SpecCalc, Step, Final, InRange, Pick;
    FinalSolves(cfg, Left(run, m), s);
    FinalSolves(cfg, run', s);
    if IsChoice(cfg, s) {
      ChoiceTakesEffect(cfg, run.rank, m.user, env, env', s, val);
    } else if cfg.info[s].role.Member? {
      var c := cfg.info[s].role.choice;
      forall x | x in beside ensures IsMemberOf(cfg, x, c) {
        MembersAre(cfg, c, x);
      }
      MemberTakesEffect(cfg, run.rank, m.user, env, env', s, c, val, beside);
    } else {
      AcceptedTakesEffect(cfg, run.rank, m.user, env, env', s, val);
    }
  }

  // ---------- An accepted value that is lost ----------

  const X := Sym(5, Boolean, false)

  /** An optional choice with one member, and a symbol that depends on it. */
  function LostConfig(): Config {
    Simple(map[C := SymInfo([None], None, None, None, [], Choice([M], [])), M := SymInfo([Some(Symbol(C))], None, None, None, [], Member(C)),
               X := SymInfo([Some(Symbol(C))], None, None, None, [], Plain)], Unseen)
  }

  function LostRank(s: Sym): nat {
    if s == C then 0 else 1
  }

  lemma LostConfigFacts()
    ensures WellFormed(LostConfig()) && Ranked(LostConfig(), LostRank)
  {
    LostIsWellFormed();
    hide WellFormed, Reads;
    LostReads();
  }

  lemma LostIsWellFormed()
    ensures WellFormed(LostConfig())
  {
    OneChoiceIsWellFormed(LostConfig().info, Unseen, C, M);
    hide WellFormed;
  }

  lemma LostReads()
    ensures Reads(LostConfig(), C) == {} && Reads(LostConfig(), M) == Reads(LostConfig(), X) == {C}
  {
    var cfg := LostConfig();
    OneSymbol(None, {});
    OneSymbol(Some(Symbol(C)), {C});
    assert [M][1..] == [] && SymsOfMembers(cfg, [M][1..]) == {};
    assert SymsOfMembers(cfg, [M]) == SymsOfPrompts(cfg.info[M].prompts) + {};
    hide SymsOfPrompts, SymsOfMembers;
    assert PickReads(cfg, C) == {} && BaseReads(cfg, C) == {};
    assert BaseReads(cfg, M) == {C} && BaseReads(cfg, X) == {C};
  }

  lemma OneSymbol(p: Option<Expr>, syms: set<Sym>)
    requires SymsOfOpt(p) == syms
    ensures SymsOfPrompts([p]) == syms
  {
    assert [p][1..] == [];
  }

  /** With y for the choice, and no value for the member, both are y. */
  lemma LostBefore(env: Env)
    requires Solves(LostConfig(), User(map[C := YES], {C}, map[]), env)
    ensures env.tri(C) == YES && env.tri(M) == YES && Visibility(LostConfig(), M, env) == YES
    ensures
      var c := Step(LostConfig(), User(map[C := YES], {C}, map[]), X, env);
      c.curr == NO && InRange(LostConfig(), X, c, YES)
  {
    var cfg, user := LostConfig(), User(map[C := YES], {C}, map[]);
    SolvedBy(cfg, user, env, C);
    SolvedBy(cfg, user, env, M);
    hide Visibility, MaxVisible, Solves;
    LostPick(user, env);
    OnePrompt(cfg, C, env);
    OnePrompt(cfg, M, env);
    OnePrompt(cfg, X, env);
    assert ChoiceStep(cfg, user, C, env).pick == Some(M);
  }

  lemma LostPick(user: User, env: Env)
    requires user.picks == map[]
    ensures Pick(LostConfig(), user, C, env) == Some(M)
  {
    var cfg, env1 := LostConfig(), SetTri(LostConfig(), env, C, YES);
    OnePrompt(cfg, M, env1);
    hide Visibility;
    assert TargetVisible(cfg, [M], M, env1) == YES;
  }

  /** Without a value for the choice all are n, whatever is said for the symbol. */
  lemma LostAfter(user: User, env: Env)
    requires C !in user.has && Solves(LostConfig(), user, env)
    ensures env.tri(C) == NO && env.tri(X) == NO && Step(LostConfig(), user, X, env).visible == NO
  {
    var cfg := LostConfig();
    SolvedBy(cfg, user, env, C);
    SolvedBy(cfg, user, env, X);
    hide Visibility, MaxVisible, Solves;
    OnePrompt(cfg, C, env);
    OnePrompt(cfg, X, env);
  }

  lemma LostUnanswered(run: Run)
    requires Ranked(LostConfig(), run.rank) && M !in run.user.has && Spec(LostConfig(), run, M).visible == YES
    ensures !AllAnswered(LostConfig(), run, [M])
  {
    hide Spec;
    assert M in [M];
  }

  lemma LostIgnored(user: User, env: Env)
    requires Step(LostConfig(), user, X, env).visible == NO && Step(LostConfig(), user, X, env).curr == NO
    ensures !Obeys(LostConfig(), user, env, X, YES, {})
  {
    hide Step;
  }

  lemma LostSpec(user: User)
    requires WellFormed(LostConfig()) && Ranked(LostConfig(), LostRank)
    ensures
      var run := Run(true, user, LostRank);
      var env := Final(LostConfig(), run);
      && Solves(LostConfig(), user, env) && env.tri(C) == Spec(LostConfig(), run, C).curr
      && Spec(LostConfig(), run, X) == Step(LostConfig(), user, X, env) && env.tri(X) == Spec(LostConfig(), run, X).curr
      && Spec(LostConfig(), run, M).visible == Visibility(LostConfig(), M, env)
  {
    var run := Run(true, user, LostRank);
    hide SpecCalc, Solves, WellFormed, Ranked, Step, Visibility;
    SpecIsStep(LostConfig(), user, LostRank, X);
    FinalSolves(LostConfig(), run, C);
    FinalSolves(LostConfig(), run, X);
    MemberSpec(LostConfig(), run, M);
  }

  /** A case: the calculation finds that the choice is y and its member visible and
      without a value, so that the choice loses its own; y is accepted for the symbol
      that depends on the choice, and at the next calculation both are n. */
  lemma AcceptedValueIsLost()
    ensures WellFormed(LostConfig()) && Ranked(LostConfig(), LostRank)
    ensures
      var cfg, user, left := LostConfig(), User(map[C := YES], {C}, map[]), User(map[C := YES], {}, map[]);
      var run, next := Run(true, user, LostRank), Run(true, Assigned(cfg, left, X, YES, {}), LostRank);
      && Spec(cfg, run, C).curr == YES && !AllAnswered(cfg, run, Members(cfg, C)) && left == user.(has := user.has - {C})
      && Spec(cfg, run, X).curr == NO && InRange(cfg, X, Spec(cfg, run, X), YES)
      && !Obeys(cfg, left, Final(cfg, Run(true, left, LostRank)), X, YES, {})
      && Spec(cfg, next, C).curr == NO && Spec(cfg, next, X).curr == NO
  {
    LostConfigFacts();
    var cfg, user, left := LostConfig(), User(map[C := YES], {C}, map[]), User(map[C := YES], {}, map[]);
    var run, next := Run(true, user, LostRank), Run(true, Assigned(cfg, left, X, YES, {}), LostRank);
    assert Members(cfg, C) == [M] && C !in next.user.has && left.has == {C} - {C};
    hide *;
    LostSpec(user);
    LostSpec(left);
    LostSpec(next.user);
    LostBefore(Final(cfg, run));
    LostUnanswered(run);
    LostAfter(left, Final(cfg, Run(true, left, LostRank)));
    LostIgnored(left, Final(cfg, Run(true, left, LostRank)));
    LostAfter(next.user, Final(cfg, next));
  }

  /** The members of the choice of `s` that will be visible were seen as visible. */
  ghost predicate SeenBefore(cfg: Config, run: Run, s: Sym, fields: map<Sym, Calc>)
    requires Ranked(cfg, run.rank) && s in cfg.info
  {
    var role := cfg.info[s].role;
    role.Member? && IsChoice(cfg, role.choice)
    && forall m :: m in Members(cfg, role.choice) ==>
         m in cfg.info && m in fields && (Spec(cfg, run, m).visible != NO ==> fields[m].visible != NO)
  }

  /** A choice all of whose members seen as visible are answered for keeps its value. */
  lemma ChoiceAnswered(cfg: Config, run: Run, s: Sym, fields: map<Sym, Calc>)
    requires Ranked(cfg, run.rank) && s in cfg.info && cfg.info[s].role.Member?
    requires IsChoice(cfg, cfg.info[s].role.choice)
    requires forall m :: m in Members(cfg, cfg.info[s].role.choice) && m in fields && fields[m].visible != NO ==> m in run.user.has
    ensures SeenBefore(cfg, run, s, fields) ==> AllAnswered(cfg, run, Members(cfg, cfg.info[s].role.choice))
  {
    hide Spec;
  }

  class SymTable {
    const cfg: Config
    var user: User
    var fields: map<Sym, Calc>
    var valid: set<Sym>
    var written: set<Sym>
    var pending: set<Sym>
    ghost var known: set<Sym>

    constructor (cfg: Config, user: User)
      requires Consistent(cfg)
      ensures this.cfg == cfg && this.user == user
      ensures Shape(cfg, State()) && valid == {} && pending == {}
    {
      this.cfg := cfg;
      this.user := user;
      fields := map s | s in cfg.info :: BLANK;
      valid, written, pending := {}, {}, {};
      known := {};
    }

    ghost function State(): Memo
      reads this
    {
      Memo(user, fields, valid, written, pending, known)
    }

    ghost predicate Ok(run: Run, busy: set<Sym>)
      reads this
    {
      Coherent(cfg, run, busy, State())
    }

    /** The symbols that are not valid. */
    ghost function Invalid(): set<Sym>
      reads this
    {
      cfg.info.Keys - valid
    }

    /** The expression may be evaluated while the symbols in `busy` are being
        calculated. */
    ghost predicate MayRead(run: Run, syms: set<Sym>, busy: set<Sym>, b: nat, focus: Option<Sym>)
      reads this
    {
      && Ok(run, busy) && Below(b, run.rank, busy) && ReadsBelow(cfg, syms, run.rank, b, focus)
      && Focused(cfg, focus, busy, State())
    }

    method CalcExpr(e: Expr, ghost run: Run, ghost busy: set<Sym>, ghost b: nat, ghost focus: Option<Sym>) returns (v: Tristate)
      requires Shape(cfg, State())
      requires run.acyclic ==> Ranked(cfg, run.rank) && MayRead(run, SymsOf(e), busy, b, focus)
      modifies this
      ensures Shape(cfg, State()) && old(valid) <= valid && pending <= old(pending)
      ensures run.acyclic ==>
        && Ok(run, busy) && Grown(cfg, run, {}, busy, old(State()), State())
        && v == Eval(e, FocusEnv(cfg, run, focus)) && Known(cfg, SymsOf(e), focus, State())
      decreases pending, Invalid(), 3, Size(e)
    {
      hide Coherent, Grown, FocusEnv, Compare, Focused, Shape;
      ghost var m0 := State();
      match e {
        case Symbol(s) =>
          v := CalcSym(s, run, busy, b, focus);
        case Not(a) =>
          var x := CalcExpr(a, run, busy, b, focus);
          v := TriNot(x);
        case Bin(op, e1, e2) =>
          var x := CalcExpr(e1, run, busy, b, focus);
          ghost var m1 := State();
          if run.acyclic {
            FocusedStays(cfg, run, focus, busy, m0, m1);
          }
          var y := CalcExpr(e2, run, busy, b, focus);
          v := Apply(op, x, y);
          if run.acyclic {
            GrownKeeps(cfg, run, {}, busy, SYM_NO, m1, State());
            GrownTwice(cfg, run, busy, m0, m1, State());
          }
        case Comp(rel, l, r) =>
          var x := CalcSym(l, run, busy, b, focus);
          ghost var m1 := State();
          if run.acyclic {
            FocusedStays(cfg, run, focus, busy, m0, m1);
          }
          var y := CalcSym(r, run, busy, b, focus);
          v := if Holds(rel, Compare(cfg, l, r, x, y)) then YES else NO;
          if run.acyclic {
            GrownKeeps(cfg, run, {}, busy, SYM_NO, m1, State());
            GrownTwice(cfg, run, busy, m0, m1, State());
            FocusCompares(cfg, run, focus, l, r);
          }
      }
    }

    /** The value of a symbol, calculating it first if necessary. */
    method CalcSym(s: Sym, ghost run: Run, ghost busy: set<Sym>, ghost b: nat, ghost focus: Option<Sym>) returns (v: Tristate)
      requires Shape(cfg, State())
      requires run.acyclic ==> Ranked(cfg, run.rank) && MayRead(run, {s}, busy, b, focus)
      modifies this
      ensures Shape(cfg, State()) && old(valid) <= valid && pending <= old(pending)
      ensures run.acyclic ==>
        && Ok(run, busy) && Grown(cfg, run, {}, busy, old(State()), State())
        && v == FocusEnv(cfg, run, focus).tri(s) && Known(cfg, {s}, focus, State())
      decreases pending, Invalid(), 2, 0
    {
      hide Coherent, Grown, FocusEnv, SpecEnv, SpecCalc, Focused;
      ghost var m0 := State();
      if run.acyclic {
        if focus.Some? { FocusInfo(cfg, focus, busy, m0); }
        FocusValues(cfg, run, focus, s);
        GrownRefl(cfg, run, busy, {}, busy, m0);
      }
      if s in cfg.info {
        CalcValue(s, run, busy);
        v := fields[s].curr;
        if run.acyclic {
          FocusedStays(cfg, run, focus, busy, m0, State());
          KnownValue(cfg, run, busy, b, focus, s, State());
        }
      } else {
        v := FixedValue(s);
      }
    }

    method CalcValue(s: Sym, ghost run: Run, ghost busy: set<Sym>)
      requires Shape(cfg, State()) && s in cfg.info
      requires run.acyclic ==> Ranked(cfg, run.rank) && Ok(run, busy) && ((s in valid && s in busy) || Below(run.rank(s) + 1, run.rank, busy))
      modifies this
      ensures Shape(cfg, State()) && old(valid) <= valid && pending <= old(pending)
      ensures s in valid || (IsChoice(cfg, s) && s in old(pending))
      ensures run.acyclic ==> Ok(run, busy) && Grown(cfg, run, {}, busy, old(State()), State()) && s in known
      ensures run.acyclic && s !in busy ==> fields[s] == Spec(cfg, run, s)
      decreases pending, Invalid(), 1, 0
    {
      hide Coherent, Grown, Final, Spec, SpecEnv, SpecCalc, Ranked, WellFormed, Step, Written, Decided, Kept;
      if s in valid {
        if run.acyclic {
          GrownRefl(cfg, run, busy, {}, busy, State());
          ValidIsSpec(cfg, run, busy, s, State());
        }
        return;
      }
      if run.acyclic { NotBusy(s, run.rank, busy); }
      ghost var m0 := State();
      ChoiceFirst(s, run, busy);
      ghost var m1 := State();
      if run.acyclic {
        Begin(cfg, run, busy, s, m1);
        if !cfg.info[s].role.Member? { OwnStep(cfg, run, busy, s, m1); }
      }
      MarkValid(s);
      assert pending < old(pending) || Invalid() < old(Invalid());
      hide Shape;
      CalcBegun(s, run, busy, m1);
      if run.acyclic {
        GrownTwice(cfg, run, busy, m0, m1, State());
      }
    }

    method MarkValid(s: Sym)
      requires Shape(cfg, State()) && s in cfg.info
      modifies this`valid, this`written, this`known
      ensures var m := old(State()); State() == m.(valid := m.valid + {s}, known := m.known + {s}, written := m.written - {s})
      ensures Shape(cfg, State())
    {
      valid := valid + {s};
      known := known + {s};
      written := written - {s};
    }

    /** Calculates a symbol just marked valid; a choice that waited sets the values
        of its members then, and takes its mark away again. */
    method CalcBegun(s: Sym, ghost run: Run, ghost busy: set<Sym>, ghost m1: Memo)
      requires Shape(cfg, State()) && s in cfg.info && s in valid && s !in written
      requires run.acyclic ==>
        && Ranked(cfg, run.rank) && Coherent(cfg, run, busy, m1) && s !in m1.valid && s !in busy && Below(run.rank(s) + 1, run.rank, busy)
        && State() == m1.(valid := m1.valid + {s}, known := m1.known + {s}, written := m1.written - {s}) && Ok(run, busy + {s})
      requires run.acyclic && !cfg.info[s].role.Member? ==> Step(cfg, user, s, Final(cfg, run)) == Spec(cfg, run, s)
      modifies this
      ensures Shape(cfg, State()) && old(valid) - {s} <= valid && pending <= old(pending)
      ensures s in valid || (IsChoice(cfg, s) && s in old(pending))
      ensures run.acyclic ==> Ok(run, busy) && Grown(cfg, run, {}, busy, m1, State()) && s in known && fields[s] == Spec(cfg, run, s)
      decreases pending, Invalid(), 11, 0
    {
      hide Coherent, Grown, Final, Spec, SpecEnv, SpecCalc, Ranked, WellFormed, Step, Written, Decided, Kept;
      CalcMarked(s, run, busy + {s});
      if run.acyclic {
        assert busy + {s} - {s} == busy;
        Finish(cfg, run, busy, s, m1, State());
      }
      ghost var m2 := State();
      if cfg.info[s].role.Choice? && s in pending {
        SetAllChoiceValues(s);
        if run.acyclic { AfterSetAll(cfg, run, busy, s, m1, m2, State()); }
      }
    }

    /** A member that waits for it lets its choice be calculated first. */
    method ChoiceFirst(s: Sym, ghost run: Run, ghost busy: set<Sym>)
      requires Shape(cfg, State()) && s in cfg.info
      requires run.acyclic ==> Ranked(cfg, run.rank) && Ok(run, busy) && s !in valid && Below(run.rank(s) + 1, run.rank, busy)
      modifies this
      ensures Shape(cfg, State()) && old(valid) <= valid
      ensures pending < old(pending) || State() == old(State())
      ensures run.acyclic ==> Ok(run, busy) && Grown(cfg, run, {}, busy, old(State()), State()) && s !in valid
      decreases pending, Invalid(), 0, 0
    {
      hide Coherent, Grown, Final, Spec, SpecEnv, SpecCalc, WellFormed, Reads;
      ghost var m0 := State();
      if run.acyclic {
        GrownRefl(cfg, run, busy, {}, busy, m0);
        NotBusy(s, run.rank, busy);
      }
      if cfg.info[s].role.Member? && s in pending {
        var c := cfg.info[s].role.choice;
        if run.acyclic {
          DropPending(cfg, run, busy, s, m0);
          OwnReads(cfg, run.rank, s);
        }
        pending := pending - {s};
        ghost var m1 := State();
        CalcValue(c, run, busy + {s});
        if run.acyclic {
          GrownTwice(cfg, run, busy + {s}, m0, m1, State());
          NotYet(cfg, run, busy, s, m0, State());
        }
      }
    }

    /** Calculates a symbol that is already marked valid. */
    method CalcMarked(s: Sym, ghost run: Run, ghost busy: set<Sym>)
      requires Shape(cfg, State()) && s in cfg.info && s in valid && s !in written
      requires run.acyclic ==> Ranked(cfg, run.rank) && Ok(run, busy) && s in busy && Below(run.rank(s), run.rank, busy)
      requires run.acyclic && !cfg.info[s].role.Member? ==> Step(cfg, user, s, Final(cfg, run)) == Spec(cfg, run, s)
      modifies this
      ensures Shape(cfg, State()) && old(valid) <= valid && pending <= old(pending)
      ensures run.acyclic ==>
        && Ok(run, busy) && Grown(cfg, run, {s}, busy - {s}, old(State()), State())
        && fields[s] == Spec(cfg, run, s)
        && (s in written <==> Written(cfg, run.user, s, Final(cfg, run)))
      decreases pending, Invalid(), 10, 0
    {
      hide Coherent, Grown, Final, Spec, Ranked, Step, Base, Written, WellFormed;
      ghost var m1 := State();
      var v := CalcFields(s, run, busy);
      Shrinks(cfg.info.Keys, old(pending), pending, old(valid), valid);
      if cfg.info[s].role.Choice? && v == YES {
        PickChoice(s, run, busy, m1);
      }
    }

    /** All fields of a symbol, but for what a choice that is y picks. */
    method CalcFields(s: Sym, ghost run: Run, ghost busy: set<Sym>) returns (v: Tristate)
      requires Shape(cfg, State()) && s in cfg.info && s in valid && s !in written
      requires run.acyclic ==> Ranked(cfg, run.rank) && Ok(run, busy) && s in busy && Below(run.rank(s), run.rank, busy)
      requires run.acyclic && !cfg.info[s].role.Member? ==> Step(cfg, user, s, Final(cfg, run)) == Spec(cfg, run, s)
      modifies this
      ensures Shape(cfg, State()) && old(valid) <= valid && pending <= old(pending) && fields[s].curr == v
      ensures run.acyclic ==>
        && Ok(run, busy) && Grown(cfg, run, {s}, busy - {s}, old(State()), State())
        && (s in written <==> Written(cfg, run.user, s, Final(cfg, run)))
        && (if IsChoice(cfg, s) && v == YES then
              fields[s] == Base(cfg, user, s, Final(cfg, run)) && Step(cfg, user, s, Final(cfg, run)) == Spec(cfg, run, s)
            else fields[s] == Spec(cfg, run, s))
      decreases pending, Invalid(), 8, 0
    {
      hide Coherent, Grown, Final, Spec, SpecEnv, SpecCalc, Ranked, Reads, ReadsBelow, Step, Base, Written, WellFormed, OwnValue, SameFor, KeptFields;
      ghost var m1 := State();
      SameForRefl(user, s);
      CalcVisibility(s, run, busy);
      ghost var m2 := State();
      if run.acyclic {
        GrownRefl(cfg, run, busy, {}, busy, m2);
        WellFormedOk(cfg, run, busy, m2);
        SpecParts(cfg, run, s, m2.user);
      }
      // n, in case the symbol is reached again while it is being calculated.
      SetOwn(s, fields[s].(curr := NO, pick := None), fields[s].visible != NO, run, busy, m1, m2);
      ghost var m3 := State();
      var mark;
      Shrinks(cfg.info.Keys, old(pending), pending, old(valid), valid);
      v, mark := CalcNew(s, run, busy);
      ghost var c4 := fields[s];
      SetOwn(s, fields[s].(curr := v), mark, run, busy, m1, m3);
      if run.acyclic {
        ValueDone(cfg, run, s, m1.user, m3.user, user, v, m3.fields[s], c4, fields[s]);
      }
    }

    /** The new value, but for what a choice picks; `mark` tells whether anything
        but the prompt asks for a line. */
    method CalcNew(s: Sym, ghost run: Run, ghost busy: set<Sym>) returns (v: Tristate, mark: bool)
      requires Shape(cfg, State()) && s in cfg.info
      requires run.acyclic ==> Ranked(cfg, run.rank) && Ok(run, busy) && s in busy && Below(run.rank(s), run.rank, busy)
      requires run.acyclic ==> fields[s] == Spec(cfg, run, s).(curr := NO, pick := None)
      requires run.acyclic && cfg.info[s].role.Member? && fields[s].visible != NO ==>
        cfg.info[s].role.choice in known && cfg.info[s].role.choice !in busy
      modifies this
      ensures Shape(cfg, State()) && old(valid) <= valid && pending <= old(pending)
      ensures run.acyclic ==>
        && Ok(run, busy) && Grown(cfg, run, {}, busy, old(State()), State())
        && v == (if IsChoice(cfg, s) then Base(cfg, old(user), s, Final(cfg, run)) else Spec(cfg, run, s)).curr
        && (mark || old(fields[s]).visible != NO <==> Written(cfg, run.user, s, Final(cfg, run)))
      decreases pending, Invalid(), 7, 0
    {
      hide Coherent, Grown, Final, Spec, SpecEnv, SpecCalc, Ranked, Reads, ReadsBelow, Step, Base, Written, WellFormed, OwnValue, DefaultValue, SameFor;
      var c := fields[s];
      ghost var m0 := State();
      if run.acyclic {
        if !IsChoice(cfg, s) {
          NotChoiceSame(cfg, run, busy, s, m0);
          SpecBase(cfg, run, s, user);
        }
        WellFormedOk(cfg, run, busy, m0);
        WrittenParts(cfg, run, s, c);
        GrownRefl(cfg, run, busy, {}, busy, m0);
      }
      if cfg.info[s].role.Member? && c.visible == YES {
        v, mark := if fields[cfg.info[s].role.choice].pick == Some(s) then YES else NO, false;
        if run.acyclic { MemberNew(cfg, run, busy, s, cfg.info[s].role.choice, m0); }
      } else {
        v, mark := CalcOwn(s, c, run, busy);
        if run.acyclic { OwnNew(cfg, run, m0.user, s, c, v); }
        v := TriOr(v, c.rev);
        if v == MOD && (ActsAsBool(cfg, s) || c.imp == YES) {
          v := YES;
        }
      }
    }

    /** The user's value if there is a visible prompt, otherwise the default and
        what is implied. */
    method CalcOwn(s: Sym, c: Calc, ghost run: Run, ghost busy: set<Sym>) returns (v: Tristate, mark: bool)
      requires Shape(cfg, State()) && s in cfg.info
      requires run.acyclic ==> Ranked(cfg, run.rank) && Ok(run, busy) && Below(run.rank(s), run.rank, busy)
      modifies this
      ensures Shape(cfg, State()) && old(valid) <= valid && pending <= old(pending)
      ensures run.acyclic ==>
        && Ok(run, busy) && Grown(cfg, run, {}, busy, old(State()), State())
        && v == OwnValue(old(user), s, cfg.info[s], c.visible, c.imp, Final(cfg, run))
        && (c.visible == NO ==>
              (mark <==> c.rev != NO || (!IsChoice(cfg, s) && (DefaultValue(cfg.info[s].defaults, Final(cfg, run)) != NO || c.imp != NO))))
      decreases pending, Invalid(), 6, 0
    {
      hide Coherent, Grown, Final, SpecEnv, SpecCalc, Ranked, Reads, ReadsBelow, DefaultValue;
      if run.acyclic {
        OwnReads(cfg, run.rank, s);
        GrownRefl(cfg, run, busy, {}, busy, State());
      }
      if c.visible != NO && s in user.has {
        v, mark := TriAnd(Stored(user, s), c.visible), false;
      } else if cfg.info[s].role.Choice? {
        v, mark := NO, c.rev != NO;
      } else {
        v := CalcDefault(cfg.info[s].defaults, run, busy, run.rank(s));
        mark := c.rev != NO || v != NO || c.imp != NO;
        v := TriOr(v, c.imp);
      }
    }

    /** An optional condition. */
    method CalcDep(dep: Option<Expr>, missing: Tristate, ghost run: Run, ghost busy: set<Sym>, ghost b: nat, ghost focus: Option<Sym>) returns (t: Tristate)
      requires Shape(cfg, State())
      requires run.acyclic ==> Ranked(cfg, run.rank) && MayRead(run, SymsOfOpt(dep), busy, b, focus)
      modifies this
      ensures Shape(cfg, State()) && old(valid) <= valid && pending <= old(pending)
      ensures run.acyclic ==>
        && Ok(run, busy) && Grown(cfg, run, {}, busy, old(State()), State()) && Focused(cfg, focus, busy, State())
        && t == DepValue(dep, missing, FocusEnv(cfg, run, focus))
      decreases pending, Invalid(), 4, 0
    {
      hide Coherent, Grown, FocusEnv, Shape, Focused;
      ghost var m0 := State();
      t := missing;
      if dep.Some? {
        t := CalcExpr(dep.value, run, busy, b, focus);
      } else if run.acyclic {
        GrownRefl(cfg, run, busy, {}, busy, m0);
      }
      if run.acyclic { FocusedStays(cfg, run, focus, busy, m0, State()); }
    }

    method CalcVisibility(s: Sym, ghost run: Run, ghost busy: set<Sym>)
      requires Shape(cfg, State()) && s in cfg.info && s in valid
      requires run.acyclic ==> Ranked(cfg, run.rank) && Ok(run, busy) && s in busy && Below(run.rank(s), run.rank, busy)
      modifies this
      ensures Shape(cfg, State()) && old(valid) <= valid && pending <= old(pending)
      ensures run.acyclic ==>
        && Ok(run, busy) && Grown(cfg, run, {s}, busy - {s}, old(State()), State())
        && fields[s] == Spec(cfg, run, s).(curr := old(fields[s]).curr, pick := old(fields[s]).pick)
        && (s in written <==> s in old(written)) && SameFor(old(user), user, s)
        && (cfg.info[s].role.Member? && fields[s].visible != NO ==> cfg.info[s].role.choice in known && cfg.info[s].role.choice !in busy)
      decreases pending, Invalid(), 7, 0
    {
      hide Coherent, Grown, Final, Spec, SpecEnv, Ranked, Reads, ReadsBelow, MaxVisible, SymsOfPrompts, Visibility, DepValue, WellFormed;
      var info := cfg.info[s];
      ghost var m0 := State();
      if run.acyclic {
        OwnReads(cfg, run.rank, s);
        GrownRefl(cfg, run, busy, {s}, busy - {s}, m0);
        WellFormedOk(cfg, run, busy, m0);
        SpecParts(cfg, run, s, run.user);
      }
      var t := CalcShown(s, run, busy, run.rank(s), None);
      SetOwn(s, fields[s].(visible := t), false, run, busy, m0, m0);
      if info.role.Member? {
        if run.acyclic { ChoiceNotBusy(cfg, run.rank, busy, s, info.role.choice); }
        return;
      }
      ghost var m1 := State();
      Shrinks(cfg.info.Keys, old(pending), pending, old(valid), valid);
      t := CalcDep(info.dirDep, YES, run, busy, run.rank(s), None);
      SetOwn(s, fields[s].(dir := PromoteIf(ActsAsBool(cfg, s), t)), false, run, busy, m0, m1);
      Shrinks(cfg.info.Keys, old(pending), pending, old(valid), valid);
      CalcReverse(s, run, busy, m0);
    }

    /** The second half: selects and implies. */
    method CalcReverse(s: Sym, ghost run: Run, ghost busy: set<Sym>, ghost m0: Memo)
      requires Shape(cfg, State()) && s in cfg.info && s in valid && !cfg.info[s].role.Member?
      requires run.acyclic ==> Ranked(cfg, run.rank) && Ok(run, busy) && s in busy && Below(run.rank(s), run.rank, busy)
      requires run.acyclic ==> s in m0.valid && Grown(cfg, run, {s}, busy - {s}, m0, State()) && SameFor(m0.user, user, s)
      requires run.acyclic ==> fields[s].visible == Spec(cfg, run, s).visible && fields[s].dir == Spec(cfg, run, s).dir
      modifies this
      ensures Shape(cfg, State()) && old(valid) <= valid && pending <= old(pending)
      ensures run.acyclic ==>
        && Ok(run, busy) && Grown(cfg, run, {s}, busy - {s}, m0, State())
        && (s in written <==> s in old(written)) && SameFor(m0.user, user, s)
        && fields[s] == Spec(cfg, run, s).(curr := old(fields[s]).curr, pick := old(fields[s]).pick)
      decreases pending, Invalid(), 5, 0
    {
      hide Coherent, Grown, Final, Spec, SpecEnv, Ranked, Reads, ReadsBelow, Visibility, DepValue, WellFormed, SameFor;
      var info := cfg.info[s];
      ghost var m2 := State();
      if run.acyclic {
        OwnReads(cfg, run.rank, s);
        WellFormedOk(cfg, run, busy, m2);
        SpecParts(cfg, run, s, run.user);
      }
      var t := CalcDep(info.revDep, NO, run, busy, run.rank(s), None);
      SetOwn(s, fields[s].(rev := PromoteIf(ActsAsBool(cfg, s), t)), false, run, busy, m0, m2);
      ghost var m3 := State();
      t := NO;
      Shrinks(cfg.info.Keys, old(pending), pending, old(valid), valid);
      if fields[s].dir != NO {
        t := CalcDep(info.implied, NO, run, busy, run.rank(s), None);
      } else if run.acyclic {
        GrownRefl(cfg, run, busy, {}, busy, m3);
      }
      SetOwn(s, fields[s].(imp := PromoteIf(ActsAsBool(cfg, s), t)), false, run, busy, m0, m3);
    }

    /** Updates the symbol being calculated. */
    method SetOwn(s: Sym, c: Calc, mark: bool, ghost run: Run, ghost busy: set<Sym>, ghost m0: Memo, ghost m1: Memo)
      requires Shape(cfg, State()) && s in cfg.info && PlainMember(cfg, s, c)
      requires run.acyclic ==> Ranked(cfg, run.rank) && Ok(run, busy) && s in busy && s in m0.valid && s in m1.fields
      requires run.acyclic ==> Grown(cfg, run, {s}, busy - {s}, m0, m1) && SameFor(m0.user, m1.user, s)
      requires run.acyclic ==> Grown(cfg, run, {}, busy, m1, State())
      modifies this`fields, this`written
      ensures Shape(cfg, State()) && fields == old(fields)[s := c]
      ensures run.acyclic ==> Ok(run, busy) && Grown(cfg, run, {s}, busy - {s}, m0, State()) && SameFor(m0.user, user, s)
      ensures run.acyclic ==> KeptFields(cfg, run, s, m1.fields[s], old(fields[s]))
      ensures run.acyclic ==> (s in written <==> mark || s in m1.written)
    {
      hide Coherent, Grown, Spec, Ranked, SameFor, KeptFields;
      ghost var m2 := State();
      fields := fields[s := c];
      if mark {
        written := written + {s};
      }
      if run.acyclic {
        GrownThenSet(cfg, run, busy, s, c, mark, m0, m1, m2);
        assert State() == m2.(fields := m2.fields[s := c], written := if mark then m2.written + {s} else m2.written);
      }
    }

    /** How visible a symbol is. */
    method CalcShown(s: Sym, ghost run: Run, ghost busy: set<Sym>, ghost b: nat, ghost focus: Option<Sym>) returns (t: Tristate)
      requires Shape(cfg, State()) && s in cfg.info
      requires run.acyclic ==> Ranked(cfg, run.rank) && MayRead(run, SymsOfPrompts(cfg.info[s].prompts), busy, b, focus)
      requires run.acyclic ==> focus.Some? ==> IsMemberOf(cfg, s, focus.value)
      modifies this
      ensures Shape(cfg, State()) && old(valid) <= valid && pending <= old(pending)
      ensures run.acyclic ==>
        && Ok(run, busy) && Grown(cfg, run, {}, busy, old(State()), State())
        && t == Visibility(cfg, s, FocusEnv(cfg, run, focus))
        && (cfg.info[s].role.Member? && t != NO ==> Known(cfg, {cfg.info[s].role.choice}, focus, State()))
      decreases pending, Invalid(), 6, 0
    {
      hide Coherent, Grown, FocusEnv, MaxVisible, SymsOfPrompts, Shape, Focused;
      t := CalcPrompts(s, run, busy, b, focus);
      if t == MOD && ActsAsBool(cfg, s) {
        t := YES;
      }
    }

    method CalcPrompts(s: Sym, ghost run: Run, ghost busy: set<Sym>, ghost b: nat, ghost focus: Option<Sym>) returns (t: Tristate)
      requires Shape(cfg, State()) && s in cfg.info
      requires run.acyclic ==> Ranked(cfg, run.rank) && MayRead(run, SymsOfPrompts(cfg.info[s].prompts), busy, b, focus)
      requires run.acyclic ==> focus.Some? ==> IsMemberOf(cfg, s, focus.value)
      modifies this
      ensures Shape(cfg, State()) && old(valid) <= valid && pending <= old(pending)
      ensures run.acyclic ==>
        && Ok(run, busy) && Grown(cfg, run, {}, busy, old(State()), State())
        && t == (var env := FocusEnv(cfg, run, focus); MaxVisible(cfg.info[s].prompts, HidesMod(cfg, s, env), env))
        && (cfg.info[s].role.Member? && t != NO ==> Known(cfg, {cfg.info[s].role.choice}, focus, State()))
      decreases pending, Invalid(), 5, 0
    {
      hide Coherent, Grown, FocusEnv, MaxVisible, SymsOfPrompts, Shape, Focused, Spec, Ranked, Below, PromptValue, HidesMod, SpecEnv, SpecCalc;
      var prompts := cfg.info[s].prompts;
      t := NO;
      var i := 0;
      ghost var env := if run.acyclic then FocusEnv(cfg, run, focus) else Env(x => NO, (x, y) => 0);
      ghost var hidden := HidesMod(cfg, s, env);
      ghost var m0 := State();
      if run.acyclic {
        GrownRefl(cfg, run, busy, {}, busy, m0);
      }
      assert prompts[0..] == prompts;
      assert MaxVisible([], hidden, env) == NO by { MaxVisibleNone(hidden, env); }
      while i < |prompts|
        invariant 0 <= i <= |prompts| && Shape(cfg, State()) && old(valid) <= valid && pending <= old(pending)
        invariant run.acyclic ==> MayRead(run, SymsOfPrompts(prompts[i..]), busy, b, focus) && Grown(cfg, run, {}, busy, m0, State())
        invariant run.acyclic ==> MaxVisible(prompts, hidden, env) == TriOr(t, MaxVisible(prompts[i..], hidden, env))
        invariant run.acyclic && cfg.info[s].role.Member? && t != NO ==> Known(cfg, {cfg.info[s].role.choice}, focus, State())
      {
        PromptAt(prompts, i, hidden, env);
        Shrinks(cfg.info.Keys, old(pending), pending, old(valid), valid);
        ghost var m1 := State();
        var p := CalcPrompt(s, prompts[i], run, busy, b, focus);
        if run.acyclic {
          GrownKeeps(cfg, run, {}, busy, SYM_NO, m1, State());
          GrownTwice(cfg, run, busy, m0, m1, State());
          FocusedStays(cfg, run, focus, busy, m1, State());
        }
        t := TriOr(t, p);
        i := i + 1;
      }
      assert prompts[|prompts|..] == [];
    }

    /** One prompt; what could only be m is hidden from the member of a choice
        that is y. */
    method CalcPrompt(s: Sym, prompt: Option<Expr>, ghost run: Run, ghost busy: set<Sym>, ghost b: nat, ghost focus: Option<Sym>) returns (p: Tristate)
      requires Shape(cfg, State()) && s in cfg.info && prompt in cfg.info[s].prompts
      requires run.acyclic ==> Ranked(cfg, run.rank) && MayRead(run, SymsOfOpt(prompt), busy, b, focus)
      requires run.acyclic ==> focus.Some? ==> IsMemberOf(cfg, s, focus.value)
      modifies this
      ensures Shape(cfg, State()) && old(valid) <= valid && pending <= old(pending)
      ensures run.acyclic ==>
        && Ok(run, busy) && Grown(cfg, run, {}, busy, old(State()), State())
        && p == (var env := FocusEnv(cfg, run, focus); PromptValue(prompt, HidesMod(cfg, s, env), env))
        && (cfg.info[s].role.Member? && p != NO ==> Known(cfg, {cfg.info[s].role.choice}, focus, State()))
      decreases pending, Invalid(), 4, 0
    {
      hide Coherent, Grown, FocusEnv, Shape, Focused, BoundedBy;
      ghost var m0 := State();
      p := YES;
      if prompt.Some? {
        p := CalcExpr(prompt.value, run, busy, b, focus);
      } else if run.acyclic {
        GrownRefl(cfg, run, busy, {}, busy, m0);
      }
      var role := cfg.info[s].role;
      if role.Member? { ChoiceThere(cfg, s, State()); }
      if run.acyclic && role.Member? {
        FocusedStays(cfg, run, focus, busy, m0, State());
        PromptKnows(cfg, run, busy, b, focus, s, role.choice, prompt, State());
      }
      if role.Member? && s.kind.TristateKind? && p == MOD && fields[role.choice].curr == YES {
        p := NO;
      }
    }

    method CalcDefault(defaults: seq<Default>, ghost run: Run, ghost busy: set<Sym>, ghost b: nat) returns (v: Tristate)
      requires Shape(cfg, State())
      requires run.acyclic ==> Ranked(cfg, run.rank) && MayRead(run, SymsOfDefaults(defaults), busy, b, None)
      modifies this
      ensures Shape(cfg, State()) && old(valid) <= valid && pending <= old(pending)
      ensures run.acyclic ==>
        Ok(run, busy) && Grown(cfg, run, {}, busy, old(State()), State()) && v == DefaultValue(defaults, Final(cfg, run))
      decreases pending, Invalid(), 5, 0
    {
      hide Coherent, Grown, Final, DefaultValue, SymsOfDefaults, Shape;
      var i := 0;
      ghost var env := if run.acyclic then Final(cfg, run) else Env(x => NO, (x, y) => 0);
      ghost var m0 := State();
      if run.acyclic {
        GrownRefl(cfg, run, busy, {}, busy, m0);
      }
      assert defaults[0..] == defaults;
      assert DefaultValue([], env) == NO by { DefaultValueNone(env); }
      while i < |defaults|
        invariant 0 <= i <= |defaults| && Shape(cfg, State()) && old(valid) <= valid && pending <= old(pending)
        invariant run.acyclic ==> MayRead(run, SymsOfDefaults(defaults[i..]), busy, b, None) && Grown(cfg, run, {}, busy, m0, State())
        invariant run.acyclic ==> DefaultValue(defaults, env) == DefaultValue(defaults[i..], env)
      {
        DefaultAt(defaults, i, env);
        Shrinks(cfg.info.Keys, old(pending), pending, old(valid), valid);
        ghost var m1 := State();
        var cond := CalcDep(defaults[i].cond, YES, run, busy, b, None);
        if run.acyclic {
          GrownTwice(cfg, run, busy, m0, m1, State());
        }
        if cond != NO {
          ghost var m2 := State();
          Shrinks(cfg.info.Keys, old(pending), pending, old(valid), valid);
          var t := CalcExpr(defaults[i].value, run, busy, b, None);
          if run.acyclic {
            GrownTwice(cfg, run, busy, m0, m2, State());
          }
          return TriAnd(t, cond);
        }
        i := i + 1;
      }
      assert defaults[|defaults|..] == [];
      v := NO;
    }

    // ---------- Choices ----------

    /** How visible a symbol is that may be picked, as remembered. */
    function Showing(members: seq<Sym>, t: Sym): Tristate
      reads this
    {
      if t in members && t in fields then fields[t].visible else cfg.seen(t)
    }

    /** Picks for a choice that is y: first the members' visibilities, then the
        user's pick or a default; a choice with a visible member for which the
        user has no value counts as new. */
    method PickChoice(c: Sym, ghost run: Run, ghost busy: set<Sym>, ghost m0: Memo)
      requires Shape(cfg, State()) && IsChoice(cfg, c) && c in valid && fields[c].curr == YES
      requires run.acyclic ==> Ranked(cfg, run.rank) && Ok(run, busy) && c in busy && Below(run.rank(c), run.rank, busy)
      requires run.acyclic ==> c in m0.valid && Grown(cfg, run, {c}, busy - {c}, m0, State())
      requires run.acyclic ==> fields[c] == Base(cfg, user, c, Final(cfg, run)) && Step(cfg, user, c, Final(cfg, run)) == Spec(cfg, run, c)
      modifies this
      ensures Shape(cfg, State()) && old(valid) <= valid && pending <= old(pending)
      ensures run.acyclic ==>
        && Ok(run, busy) && Grown(cfg, run, {c}, busy - {c}, m0, State())
        && fields[c] == Spec(cfg, run, c) && (c in written <==> c in old(written))
        && (c in user.has <==> c in old(user).has && AllAnswered(cfg, run, Members(cfg, c)))
      decreases pending, Invalid(), 9, 0
    {
      hide Coherent, Grown, Final, Spec, SpecEnv, SpecCalc, Ranked, Step, Base, WellFormed, PickWhenYes, Pick, KeptFields, SeenRight, Focused, Shape, Below, AllShown, AllAnswered;
      ghost var m1 := State();
      ShapeFields(cfg, c, m1);
      ghost var crowd := busy + SeqSet(Members(cfg, c));
      if run.acyclic {
        Crowded(cfg, run, busy, c, m1);
      }
      var counts := ShowMembers(c, run, crowd);
      ghost var m2 := State();
      DropUser(c, counts, run, crowd);
      ghost var user' := user;
      Shrinks(cfg.info.Keys, old(pending), pending, old(valid), valid);
      var p := PickMember(c, run, crowd);
      ghost var m3 := State();
      ShapeFields(cfg, c, m3);
      if run.acyclic {
        StillHas(cfg, run, {}, crowd, c, m1, m2);
        StillHas(cfg, run, {}, crowd, c, m2.(user := user'), m3);
        PickedRight(cfg, run, busy, c, m0, m1, m2, user', m3, p);
      }
      ChoiceSet(cfg, c, if p.None? then NO else YES, p, m3);
      fields := fields[c := fields[c].(curr := if p.None? then NO else YES, pick := p)];
    }

    /** A choice with a visible member that is new does not count as set. */
    method DropUser(c: Sym, counts: bool, ghost run: Run, ghost crowd: set<Sym>)
      requires Shape(cfg, State()) && IsChoice(cfg, c) && c in valid
      requires run.acyclic ==> Ranked(cfg, run.rank) && Ok(run, crowd) && Focused(cfg, Some(c), crowd, State())
      requires run.acyclic ==> AllShown(cfg, run, Members(cfg, c), State())
      modifies this`user
      ensures user == if counts then old(user) else old(user).(has := old(user).has - {c})
      ensures Shape(cfg, State())
      ensures run.acyclic ==>
        && Ok(run, crowd) && Focused(cfg, Some(c), crowd, State()) && AllShown(cfg, run, Members(cfg, c), State())
        && Grown(cfg, run, {c}, crowd - {c}, old(State()), State())
    {
      hide Coherent, Grown, Final, Spec;
      ghost var m := State();
      if !counts {
        user := user.(has := user.has - {c});
      }
      if run.acyclic {
        FoundNew(cfg, run, crowd, c, m, user);
        assert State() == m.(user := user);
      }
    }

    /** The visibilities of a choice's members while it is y; `counts` tells
        whether the user has a value for every visible one. */
    method ShowMembers(c: Sym, ghost run: Run, ghost crowd: set<Sym>) returns (counts: bool)
      requires Shape(cfg, State()) && IsChoice(cfg, c) && c in valid && fields[c].curr == YES
      requires run.acyclic ==>
        && Ranked(cfg, run.rank) && Ok(run, crowd) && Below(run.rank(c), run.rank, crowd) && Focused(cfg, Some(c), crowd, State())
        && SeqSet(Members(cfg, c)) <= crowd && SeenRight(cfg, run, c)
      modifies this
      ensures Shape(cfg, State()) && old(valid) <= valid && pending <= old(pending)
      ensures run.acyclic ==>
        && Ok(run, crowd) && Grown(cfg, run, {}, crowd, old(State()), State()) && Focused(cfg, Some(c), crowd, State())
        && AllShown(cfg, run, Members(cfg, c), State())
        && (counts <==> AllAnswered(cfg, run, Members(cfg, c)))
      decreases pending, Invalid(), 8, 0
    {
      hide Coherent, Grown, Final, Spec, FocusEnv, Ranked, AllShown, AllAnswered, Focused, ReadsBelow, SymsOfPrompts, Visibility, Below, WellFormed, Shape, SeenRight;
      var members := cfg.info[c].role.members;
      ghost var m0 := State();
      if run.acyclic {
        GrownRefl(cfg, run, crowd, {}, crowd, m0);
        WellFormedOk(cfg, run, crowd, m0);
        OwnPickReads(cfg, run.rank, c);
        NoneShown(cfg, run, m0);
        AnsweredNone(cfg, run);
      }
      assert members[..0] == [];
      counts := true;
      for j := 0 to |members|
        invariant Shape(cfg, State()) && old(valid) <= valid && pending <= old(pending)
        invariant run.acyclic ==>
          && Ok(run, crowd) && Grown(cfg, run, {}, crowd, m0, State()) && Focused(cfg, Some(c), crowd, State())
          && AllShown(cfg, run, members[..j], State())
          && (counts <==> AllAnswered(cfg, run, members[..j]))
      {
        Shrinks(cfg.info.Keys, old(pending), pending, old(valid), valid);
        MemberThere(cfg, c, members[j], State());
        var t := ShowMember(c, members[j], members[..j], run, crowd, m0);
        assert members[..j + 1] == members[..j] + [members[j]];
        if run.acyclic {
          MembersAre(cfg, c, members[j]);
          AnsweredMore(cfg, run, crowd, members[..j], members[j], State());
        }
        if t != NO && members[j] !in user.has {
          counts := false;
        }
      }
      assert members[..|members|] == members;
    }

    method ShowMember(c: Sym, x: Sym, ghost before: seq<Sym>, ghost run: Run, ghost crowd: set<Sym>, ghost m0: Memo) returns (t: Tristate)
      requires Shape(cfg, State()) && IsChoice(cfg, c) && x in Members(cfg, c) && x in cfg.info
      requires run.acyclic ==>
        && Ranked(cfg, run.rank) && Ok(run, crowd) && Below(run.rank(c), run.rank, crowd) && Focused(cfg, Some(c), crowd, State())
        && SeqSet(Members(cfg, c)) <= crowd && SeqSet(before) <= crowd && SeenRight(cfg, run, c) && AllShown(cfg, run, before, State())
        && Grown(cfg, run, {}, crowd, m0, State())
      modifies this
      ensures Shape(cfg, State()) && old(valid) <= valid && pending <= old(pending)
      ensures run.acyclic ==>
        && Ok(run, crowd) && Grown(cfg, run, {}, crowd, m0, State()) && Focused(cfg, Some(c), crowd, State())
        && AllShown(cfg, run, before + [x], State())
      ensures x in fields && fields[x].visible == t
      decreases pending, Invalid(), 7, 0
    {
      hide Coherent, Grown, Final, Spec, FocusEnv, Ranked, AllShown, Focused, ReadsBelow, SymsOfPrompts, Visibility, Below, WellFormed, Shape;
      ghost var m1 := State();
      if run.acyclic {
        WellFormedOk(cfg, run, crowd, m1);
        OwnPickReads(cfg, run.rank, c);
        MembersAre(cfg, c, x);
      }
      t := CalcShown(x, run, crowd, run.rank(c), Some(c));
      ghost var m2 := State();
      ShapeFields(cfg, x, m2);
      PlainStays(cfg, x, t, m2);
      fields := fields[x := fields[x].(visible := t)];
      ShapeSet(cfg, x, m2.fields[x].(visible := t), m2, State());
      if run.acyclic {
        OneShown(cfg, run, crowd, c, before, x, m0, m1, m2, t);
        assert State() == m2.(fields := m2.fields[x := m2.fields[x].(visible := t)]);
      }
    }

    /** The user's pick if it is visible, else the first default that applies, else
        the first visible member. */
    method PickMember(c: Sym, ghost run: Run, ghost crowd: set<Sym>) returns (p: Option<Sym>)
      requires Shape(cfg, State()) && IsChoice(cfg, c)
      requires run.acyclic ==>
        && Ranked(cfg, run.rank) && Ok(run, crowd) && Below(run.rank(c), run.rank, crowd) && Focused(cfg, Some(c), crowd, State())
        && SeqSet(Members(cfg, c)) <= crowd && SeenRight(cfg, run, c) && AllShown(cfg, run, Members(cfg, c), State())
      modifies this
      ensures Shape(cfg, State()) && old(valid) <= valid && pending <= old(pending)
      ensures run.acyclic ==>
        && Ok(run, crowd) && Grown(cfg, run, {}, crowd, old(State()), State()) && user.picks == old(user.picks)
        && p == PickWhenYes(cfg, old(user), c, FocusEnv(cfg, run, Some(c)))
      decreases pending, Invalid(), 6, 0
    {
      hide Coherent, Grown, Final, Spec, FocusEnv, Ranked, AllShown, SeenRight, Focused, TargetVisible, FirstDefault, FirstVisible;
      var role := cfg.info[c].role;
      ghost var m0 := State();
      if run.acyclic {
        GrownRefl(cfg, run, crowd, {}, crowd, m0);
        if c in user.picks { ShowingRight(cfg, run, c, m0, user.picks[c]); }
      }
      if c in user.picks && Showing(role.members, user.picks[c]) != NO {
        return Some(user.picks[c]);
      }
      p := CalcPicks(c, run, crowd);
      if p.None? {
        p := FirstShowing(c, run);
      }
      if run.acyclic { SamePicks(cfg, run, crowd, m0, State()); }
    }

    /** The first default of a choice that applies and is visible. */
    method CalcPicks(c: Sym, ghost run: Run, ghost crowd: set<Sym>) returns (p: Option<Sym>)
      requires Shape(cfg, State()) && IsChoice(cfg, c)
      requires run.acyclic ==>
        && Ranked(cfg, run.rank) && Ok(run, crowd) && Below(run.rank(c), run.rank, crowd) && Focused(cfg, Some(c), crowd, State())
        && SeqSet(Members(cfg, c)) <= crowd && SeenRight(cfg, run, c) && AllShown(cfg, run, Members(cfg, c), State())
      modifies this
      ensures Shape(cfg, State()) && old(valid) <= valid && pending <= old(pending)
      ensures run.acyclic ==>
        && Ok(run, crowd) && Grown(cfg, run, {}, crowd, old(State()), State()) && AllShown(cfg, run, Members(cfg, c), State())
        && p == FirstDefault(cfg, Members(cfg, c), cfg.info[c].role.picks, FocusEnv(cfg, run, Some(c)))
      decreases pending, Invalid(), 5, 0
    {
      hide Coherent, Grown, Final, Spec, FocusEnv, Ranked, AllShown, SeenRight, Focused, TargetVisible, FirstDefault, SymsOfPicks;
      var members, picks := cfg.info[c].role.members, cfg.info[c].role.picks;
      ghost var m0 := State();
      ghost var env := if run.acyclic then FocusEnv(cfg, run, Some(c)) else Env(x => NO, (x, y) => 0);
      if run.acyclic {
        GrownRefl(cfg, run, crowd, {}, crowd, m0);
        WellFormedOk(cfg, run, crowd, m0);
        OwnPickReads(cfg, run.rank, c);
      }
      assert picks[0..] == picks;
      for i := 0 to |picks|
        invariant Shape(cfg, State()) && old(valid) <= valid && pending <= old(pending)
        invariant run.acyclic ==>
          && MayRead(run, SymsOfPicks(picks[i..]), crowd, run.rank(c), Some(c)) && Grown(cfg, run, {}, crowd, m0, State())
          && AllShown(cfg, run, members, State()) && FirstDefault(cfg, members, picks, env) == FirstDefault(cfg, members, picks[i..], env)
      {
        PickAt(cfg, members, picks, i, env);
        Shrinks(cfg.info.Keys, old(pending), pending, old(valid), valid);
        ghost var m1 := State();
        var cond := CalcDep(picks[i].cond, YES, run, crowd, run.rank(c), Some(c));
        if run.acyclic {
          GrownTwice(cfg, run, crowd, m0, m1, State());
          ShownStays(cfg, run, crowd, members, m1, State());
          ShowingRight(cfg, run, c, State(), picks[i].target);
        }
        if cond != NO && Showing(members, picks[i].target) != NO {
          return Some(picks[i].target);
        }
      }
      assert picks[|picks|..] == [];
      p := None;
      NoPicks(cfg, members, env);
    }

    /** The first visible member of a choice. */
    method FirstShowing(c: Sym, ghost run: Run) returns (p: Option<Sym>)
      requires Shape(cfg, State()) && IsChoice(cfg, c)
      requires run.acyclic ==> Ranked(cfg, run.rank) && SeenRight(cfg, run, c) && AllShown(cfg, run, Members(cfg, c), State())
      ensures run.acyclic ==> p == FirstVisible(cfg, Members(cfg, c), Members(cfg, c), FocusEnv(cfg, run, Some(c)))
    {
      hide Spec, FocusEnv, Ranked, AllShown, SeenRight, TargetVisible, FirstVisible;
      var members := cfg.info[c].role.members;
      ghost var env := if run.acyclic then FocusEnv(cfg, run, Some(c)) else Env(x => NO, (x, y) => 0);
      assert members[0..] == members;
      for i := 0 to |members|
        invariant run.acyclic ==> FirstVisible(cfg, members, members, env) == FirstVisible(cfg, members, members[i..], env)
      {
        VisibleAt(cfg, members, members, i, env);
        if run.acyclic { ShowingRight(cfg, run, c, State(), members[i]); }
        if Showing(members, members[i]) != NO {
          return Some(members[i]);
        }
      }
      assert members[|members|..] == [];
      p := None;
      NoneVisible(cfg, members, env);
    }

    /** Members without a value get n, and the choice counts as set and is to be
        calculated again. */
    method SetAllChoiceValues(c: Sym)
      requires Shape(cfg, State()) && IsChoice(cfg, c)
      modifies this`user, this`valid, this`pending
      ensures Shape(cfg, State()) && Decided(cfg, old(user), user, c)
      ensures forall m :: m in Members(cfg, c) && m !in old(user).has ==> Stored(user, m) == NO
      ensures valid == old(valid) - {c} && pending == old(pending) - {c}
    {
      var members := cfg.info[c].role.members;
      var stored: map<Sym, Tristate> := user.stored;
      for i := 0 to |members|
        invariant forall s :: s in user.has || s !in members ==> Stored(user.(stored := stored), s) == Stored(user, s)
        invariant forall j :: 0 <= j < i && members[j] !in user.has ==> Stored(user.(stored := stored), members[j]) == NO
      {
        if members[i] !in user.has {
          stored := stored[members[i] := NO];
        }
      }
      user := User(stored, user.has + {c}, user.picks);
      valid := valid - {c};
      pending := pending - {c};
    }

    // ---------- Requests from outside ----------

    /** Calculates symbols in any order, with repetitions: every one of them ends
        up with its specified value. */
    method CalcAll(order: seq<Sym>, ghost run: Run)
      requires Shape(cfg, State()) && forall i :: 0 <= i < |order| ==> order[i] in cfg.info
      requires run.acyclic ==> Ranked(cfg, run.rank) && Ok(run, {})
      modifies this
      ensures Shape(cfg, State()) && old(valid) <= valid && pending <= old(pending)
      ensures run.acyclic ==>
        && Ok(run, {}) && Grown(cfg, run, {}, {}, old(State()), State())
        && forall i :: 0 <= i < |order| ==> fields[order[i]] == Spec(cfg, run, order[i])
    {
      hide Coherent, Grown, Spec, Ranked;
      ghost var m0 := State();
      if run.acyclic {
        GrownRefl(cfg, run, {}, {}, {}, m0);
      }
      for i := 0 to |order|
        invariant Shape(cfg, State()) && old(valid) <= valid && pending <= old(pending)
        invariant run.acyclic ==>
          && Ok(run, {}) && Grown(cfg, run, {}, {}, m0, State())
          && forall j :: 0 <= j < i ==> order[j] in known
      {
        ghost var m1 := State();
        CalcValue(order[i], run, {});
        if run.acyclic {
          GrownKeeps(cfg, run, {}, {}, SYM_NO, m1, State());
          GrownTwice(cfg, run, {}, m0, m1, State());
        }
      }
      if run.acyclic { KnownIsSpec(cfg, run, State()); }
    }

    method ClearAllValid()
      requires Shape(cfg, State())
      modifies this`valid, this`known
      ensures Shape(cfg, State()) && valid == known == {}
    {
      valid := {};
      known := {};
    }

    // ---------- Assignments ----------

    function WithinRange(s: Sym, val: Tristate): bool
      requires s in cfg.info && s in fields
      reads this
    {
      InRange(cfg, s, fields[s], val)
    }

    /** The members beside `s` in its choice that are remembered as visible. */
    function Beside(s: Sym): set<Sym>
      requires s in cfg.info
      reads this`fields
    {
      var role := cfg.info[s].role;
      if role.Member? && IsChoice(cfg, role.choice) then Seen(Members(cfg, role.choice)) else {}
    }

    /** Those remembered as visible. */
    function Seen(members: seq<Sym>): set<Sym>
      reads this`fields
    {
      set m | m in members && m in fields && fields[m].visible != NO
    }

    lemma SeenNone()
      ensures Seen([]) == {}
    {
    }

    lemma SeenMore(members: seq<Sym>, m: Sym)
      ensures Seen(members + [m]) == Seen(members) + if m in fields && fields[m].visible != NO then {m} else {}
    {
    }

    /** A member of a choice is picked; all members that are visible count as set. */
    method PickInChoice(s: Sym, c: Sym)
      requires Shape(cfg, State()) && IsMemberOf(cfg, s, c) && IsChoice(cfg, c)
      modifies this`user
      ensures user.stored == old(user).stored && user.picks == old(user).picks[c := s]
      ensures forall m :: m in user.has <==>
        m in old(user).has || m == c || (m in cfg.info[c].role.members && m in fields && fields[m].visible != NO)
      ensures user == User(old(user).stored, old(user).has + {c} + Beside(s), old(user).picks[c := s])
    {
      hide Shape;
      var members := cfg.info[c].role.members;
      var has := user.has + {c};
      SeenNone();
      for i := 0 to |members|
        invariant user == old(user) && has == user.has + {c} + Seen(members[..i])
      {
        assert members[..i + 1] == members[..i] + [members[i]];
        SeenMore(members[..i], members[i]);
        if members[i] in fields && fields[members[i]].visible != NO {
          has := has + {members[i]};
        }
      }
      assert members[..|members|] == members;
      assert has == user.has + {c} + Beside(s);
      user := User(user.stored, has, user.picks[c := s]);
    }

    /** Accepts or refuses a value for a calculated symbol. Calculating lets choices
        lose the user's values, so whether an accepted new value is the one that
        the symbol will have is seen by what the answers left give; where they give
        the same fields it is, unless a choice finds nothing to pick. If the value
        was not new, the remembered values are kept. */
    method SetTristate(s: Sym, val: Tristate, ghost run: Run) returns (ok: bool)
      requires Shape(cfg, State()) && s in cfg.info
      requires run.acyclic ==> Ranked(cfg, run.rank) && Ok(run, {}) && s in known
      modifies this`user, this`valid, this`known
      ensures Shape(cfg, State())
      ensures ok <==> old(fields[s]).curr == val || old(WithinRange(s, val))
      ensures user == (if ok then Assigned(cfg, old(user), s, val, old(Beside(s))) else old(user))
      ensures ok ==> user.stored == old(user).stored[s := val]
      ensures ok && !(cfg.info[s].role.Member? && val == YES) ==>
        user.picks == old(user).picks && user.has == old(user).has + {s}
      ensures ok && cfg.info[s].role.Member? && val == YES ==>
        var c := cfg.info[s].role.choice;
        && user.picks == old(user).picks[c := s]
        && (forall m :: m in user.has <==>
             || m in old(user).has || m == s || m == c
             || (IsChoice(cfg, c) && m in cfg.info[c].role.members && m in old(fields) && old(fields[m]).visible != NO))
      ensures run.acyclic && ok && cfg.info[s].role.Member? && val == YES && SeenBefore(cfg, run.(user := user), s, old(fields)) ==>
        AllAnswered(cfg, run.(user := user), Members(cfg, cfg.info[s].role.choice))
      ensures valid == (if ok && old(fields[s]).curr != val then {} else old(valid))
      ensures !ok ==> known == old(known)
      ensures run.acyclic && ok && old(fields[s]).curr != val && NothingWaits(cfg, State()) ==>
        Coherent(cfg, run.(user := user), {}, State())
      ensures run.acyclic && ok && old(fields[s]).curr != val && (cfg.info[s].role.Member? ==> cfg.info[s].defaults == []) ==>
        (Spec(cfg, run.(user := user), s).curr == val
         <==> Obeys(cfg, old(user), Final(cfg, run.(user := old(user))), s, val, old(Beside(s))))
      ensures run.acyclic && ok && old(fields[s]).curr != val && old(fields[s]) == Spec(cfg, run.(user := old(user)), s) ==>
        Spec(cfg, run.(user := user), s).curr == val
        || (IsChoice(cfg, s) && val == YES && Pick(cfg, old(user), s, Final(cfg, run.(user := old(user)))).None?)
    {
      hide Coherent, Spec, SpecEnv, SpecCalc, Final, Linked, Step, InRange, Pick, Obeys, SeenBefore, AllAnswered;
      ghost var m0, beside := State(), Beside(s);
      var oldval := fields[s].curr;
      if oldval != val && !WithinRange(s, val) {
        return false;
      }
      var role := cfg.info[s].role;
      if role.Member? && val == YES {
        PickInChoice(s, role.choice);
      }
      user := User(user.stored[s := val], user.has + {s}, user.picks);
      assert user == Assigned(cfg, m0.user, s, val, beside);
      if run.acyclic && role.Member? && val == YES {
        WellFormedOk(cfg, run, {}, m0);
        ChoiceAnswered(cfg, run.(user := user), s, m0.fields);
      }
      if oldval != val {
        ClearAllValid();
        if run.acyclic {
          WellFormedOk(cfg, run, {}, m0);
          if NothingWaits(cfg, State()) { FreshStart(cfg, run.(user := user), State()); }
          if cfg.info[s].role.Member? ==> cfg.info[s].defaults == [] { SettingObeyed(cfg, run, m0, s, val, beside); }
          if m0.fields[s] == Spec(cfg, Left(run, m0), s) { AcceptedObeyed(cfg, run, m0, s, val, beside); }
        }
      }
      return true;
    }

    /** The next value in the order n, m, y. */
    static function NextValue(t: Tristate): Tristate {
      if t == YES then NO else t + 1
    }

    /** Moves on to the next acceptable value, or stays. */
    method Toggle(s: Sym, ghost run: Run) returns (newval: Tristate)
      requires Shape(cfg, State()) && s in cfg.info
      requires run.acyclic ==> Ranked(cfg, run.rank) && Ok(run, {}) && s in known
      modifies this`user, this`valid, this`known
      ensures
        var cur := old(fields[s]).curr;
        newval ==
          if old(WithinRange(s, NextValue(cur))) then NextValue(cur)
          else if old(WithinRange(s, NextValue(NextValue(cur)))) then NextValue(NextValue(cur))
          else cur
      ensures old(fields[s]).curr == NO ==>
        newval == if old(WithinRange(s, MOD)) then MOD else if old(WithinRange(s, YES)) then YES else NO
      ensures old(fields[s]).curr == MOD ==>
        newval == if old(WithinRange(s, YES)) then YES else if old(WithinRange(s, NO)) then NO else MOD
      ensures old(fields[s]).curr == YES ==>
        newval == if old(WithinRange(s, NO)) then NO else if old(WithinRange(s, MOD)) then MOD else YES
      ensures user == Assigned(cfg, old(user), s, newval, old(Beside(s)))
      ensures run.acyclic && newval != old(fields[s]).curr && (cfg.info[s].role.Member? ==> cfg.info[s].defaults == []) ==>
        (Spec(cfg, run.(user := user), s).curr == newval
         <==> Obeys(cfg, old(user), Final(cfg, run.(user := old(user))), s, newval, old(Beside(s))))
      ensures run.acyclic && newval != old(fields[s]).curr && old(fields[s]) == Spec(cfg, run.(user := old(user)), s) ==>
        Spec(cfg, run.(user := user), s).curr == newval
        || (IsChoice(cfg, s) && newval == YES && Pick(cfg, old(user), s, Final(cfg, run.(user := old(user)))).None?)
    {
      ShapeFields(cfg, s, State());
      hide Coherent, Spec, SpecEnv, SpecCalc, Final, Linked, Step, InRange, Pick, Obeys, Shape, Assigned;
      var oldval := fields[s].curr;
      newval := NextValue(oldval);
      var ok := SetTristate(s, newval, run);
      while !ok && oldval != newval
        invariant Shape(cfg, State())
        invariant !ok ==> State() == old(State())
        invariant !ok ==> newval != oldval && !old(WithinRange(s, newval))
        invariant !ok ==> newval == NextValue(oldval) || (newval == NextValue(NextValue(oldval)) && !old(WithinRange(s, NextValue(oldval))))
        invariant ok ==> user == Assigned(cfg, old(user), s, newval, old(Beside(s)))
        invariant ok ==> newval == oldval || old(WithinRange(s, newval))
        invariant ok && newval == NextValue(NextValue(oldval)) ==> !old(WithinRange(s, NextValue(oldval)))
        invariant ok && newval == oldval ==>
          !old(WithinRange(s, NextValue(oldval))) && !old(WithinRange(s, NextValue(NextValue(oldval))))
        invariant run.acyclic && ok && newval != oldval && (cfg.info[s].role.Member? ==> cfg.info[s].defaults == []) ==>
          (Spec(cfg, run.(user := user), s).curr == newval
           <==> Obeys(cfg, old(user), Final(cfg, run.(user := old(user))), s, newval, old(Beside(s))))
        invariant run.acyclic && ok && newval != oldval && old(fields[s]) == Spec(cfg, run.(user := old(user)), s) ==>
          Spec(cfg, run.(user := user), s).curr == newval
          || (IsChoice(cfg, s) && newval == YES && Pick(cfg, old(user), s, Final(cfg, run.(user := old(user)))).None?)
        decreases if ok then 0 else if newval == NextValue(oldval) then 2 else 1
      {
        newval := NextValue(newval);
        ok := SetTristate(s, newval, run);
      }
    }
  }
}
