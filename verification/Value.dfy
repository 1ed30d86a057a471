/** The value of a symbol, said by the expressions of its definition alone. */
module Values {
  import opened Options
  import opened Tristates
  import opened Exprs
  import opened Calculation
  import opened Choices

  // ---------- Conditions and defaults ----------

  /** The value of a prompt's condition; m may not count. */
  function Shown(p: Option<Expr>, noMod: bool, env: Env): Tristate {
    var v := if p.None? then YES else Eval(p.value, env);
    if noMod && v == MOD then NO else v
  }

  /** `v` is the highest of them, n if there are none. */
  ghost predicate IsHighest(v: Tristate, prompts: seq<Option<Expr>>, noMod: bool, env: Env) {
    && (forall i :: 0 <= i < |prompts| ==> Shown(prompts[i], noMod, env) <= v)
    && (v == NO || exists i :: 0 <= i < |prompts| && Shown(prompts[i], noMod, env) == v)
  }

  /** The default at `i` is the first with a condition other than n, and gives `d`,
      its value bounded by its condition. */
  ghost predicate IsDefaultAt(d: Tristate, defaults: seq<Default>, i: nat, env: Env) {
    && i < |defaults| && Shown(defaults[i].cond, false, env) != NO
    && (forall j :: 0 <= j < i ==> Shown(defaults[j].cond, false, env) == NO)
    && d == Lower(Eval(defaults[i].value, env), Shown(defaults[i].cond, false, env))
  }

  /** The value of the first default that applies; n if there is none. */
  ghost predicate IsDefault(d: Tristate, defaults: seq<Default>, env: Env) {
    || (d == NO && forall i :: 0 <= i < |defaults| ==> Shown(defaults[i].cond, false, env) == NO)
    || exists i: nat :: IsDefaultAt(d, defaults, i, env)
  }

  function Lower(a: Tristate, b: Tristate): Tristate {
    if a <= b then a else b
  }

  function Higher(a: Tristate, b: Tristate): Tristate {
    if a <= b then b else a
  }

  lemma {:induction false} HighestIs(prompts: seq<Option<Expr>>, noMod: bool, env: Env)
    ensures IsHighest(MaxVisible(prompts, noMod, env), prompts, noMod, env)
  {
    if prompts != [] {
      HighestIs(prompts[1..], noMod, env);
      var v, w := MaxVisible(prompts, noMod, env), MaxVisible(prompts[1..], noMod, env);
      assert forall i :: 1 <= i < |prompts| ==> prompts[1..][i - 1] == prompts[i];
      if v == Shown(prompts[0], noMod, env) {
      } else if v != NO {
        var i :| 0 <= i < |prompts[1..]| && Shown(prompts[1..][i], noMod, env) == v;
        assert Shown(prompts[i + 1], noMod, env) == v;
      }
    }
  }

  lemma HighestIsOne(v: Tristate, w: Tristate, prompts: seq<Option<Expr>>, noMod: bool, env: Env)
    requires IsHighest(v, prompts, noMod, env) && IsHighest(w, prompts, noMod, env)
    ensures v == w
  {
  }

  lemma {:induction false} DefaultIs(defaults: seq<Default>, env: Env)
    ensures IsDefault(DefaultValue(defaults, env), defaults, env)
  {
    if defaults == [] {
    } else if Shown(defaults[0].cond, false, env) != NO {
      assert IsDefaultAt(DefaultValue(defaults, env), defaults, 0, env);
    } else {
      var rest := defaults[1..];
      DefaultIs(rest, env);
      assert forall i :: 1 <= i < |defaults| ==> rest[i - 1] == defaults[i];
      if i: nat :| IsDefaultAt(DefaultValue(rest, env), rest, i, env) {
        assert IsDefaultAt(DefaultValue(rest, env), defaults, i + 1, env);
      }
    }
  }

  lemma DefaultIsOne(d: Tristate, e: Tristate, defaults: seq<Default>, env: Env)
    requires IsDefault(d, defaults, env) && IsDefault(e, defaults, env)
    ensures d == e
  {
    if i: nat, j: nat :| IsDefaultAt(d, defaults, i, env) && IsDefaultAt(e, defaults, j, env) {
      assert i == j;
    }
  }

  // ---------- Comparisons ----------

  /** `a` comes before `b` in the dictionary: it ends first, or has the smaller
      character, behind what they have in common. */
  ghost predicate IsBefore(a: string, b: string) {
    exists k: nat :: PartAt(a, b, k)
  }

  ghost predicate PartAt(a: string, b: string, k: nat) {
    && k <= |a| && k < |b| && (forall i :: 0 <= i < k ==> a[i] == b[i])
    && (k == |a| || a[k] < b[k])
  }

  lemma {:induction false} StrCmpIsBefore(a: string, b: string)
    ensures StrCmp(a, b) < 0 <==> IsBefore(a, b)
  {
    if a == [] || b == [] || a[0] != b[0] {
      if StrCmp(a, b) < 0 { assert PartAt(a, b, 0); }
    } else {
      StrCmpIsBefore(a[1..], b[1..]);
      if k: nat :| PartAt(a[1..], b[1..], k) { assert PartAt(a, b, k + 1); }
      if k: nat :| PartAt(a, b, k) {
        assert forall i :: 0 <= i < k - 1 ==> a[1..][i] == a[i + 1] && b[1..][i] == b[i + 1];
        assert PartAt(a[1..], b[1..], k - 1);
      }
    }
  }

  lemma {:induction false} StrCmpBack(a: string, b: string)
    ensures StrCmp(a, b) == -StrCmp(b, a)
  {
    if a != [] && b != [] && a[0] == b[0] { StrCmpBack(a[1..], b[1..]); }
  }

  /** The sides are compared as numbers. */
  predicate AsNumbers(cfg: Config, l: Sym, r: Sym) {
    && (IsTriKind(l) || cfg.number(l).Some?) && (IsTriKind(r) || cfg.number(r).Some?)
    && !(l.kind.Str? && r.kind.Str?)
  }

  /** The number compared: a bool or tristate counts from n; negative numbers wrap
      around if one side is hexadecimal. */
  function ComparedNumber(cfg: Config, env: Env, s: Sym, hex: bool): int
    requires IsTriKind(s) || cfg.number(s).Some?
  {
    var n := if IsTriKind(s) then env.tri(s) else cfg.number(s).value;
    if hex then n % 0x1_0000_0000_0000_0000 else n
  }

  /** What a comparison answers in every solution. */
  lemma ComparisonByNumberOrText(cfg: Config, user: User, env: Env, l: Sym, r: Sym)
    requires Solves(cfg, user, env)
    ensures forall rel: Rel :: Eval(Comp(rel, l, r), env) == YES || Eval(Comp(rel, l, r), env) == NO
    ensures AsNumbers(cfg, l, r) ==>
      var hex := l.kind.Hex? || r.kind.Hex?;
      var a, b := ComparedNumber(cfg, env, l, hex), ComparedNumber(cfg, env, r, hex);
      && (Eval(Comp(Eq, l, r), env) == YES <==> a == b) && (Eval(Comp(Ne, l, r), env) == YES <==> a != b)
      && (Eval(Comp(Lt, l, r), env) == YES <==> a < b) && (Eval(Comp(Le, l, r), env) == YES <==> a <= b)
      && (Eval(Comp(Gt, l, r), env) == YES <==> a > b) && (Eval(Comp(Ge, l, r), env) == YES <==> a >= b)
    ensures !AsNumbers(cfg, l, r) ==>
      var a, b := TextOf(cfg, l, env.tri(l)), TextOf(cfg, r, env.tri(r));
      && (Eval(Comp(Eq, l, r), env) == YES <==> a == b) && (Eval(Comp(Ne, l, r), env) == YES <==> a != b)
      && (Eval(Comp(Lt, l, r), env) == YES <==> IsBefore(a, b)) && (Eval(Comp(Le, l, r), env) == YES <==> !IsBefore(b, a))
      && (Eval(Comp(Gt, l, r), env) == YES <==> IsBefore(b, a)) && (Eval(Comp(Ge, l, r), env) == YES <==> !IsBefore(a, b))
  {
    var a, b := TextOf(cfg, l, env.tri(l)), TextOf(cfg, r, env.tri(r));
    StrCmpZero(a, b);
    StrCmpBack(a, b);
    StrCmpIsBefore(a, b);
    StrCmpIsBefore(b, a);
    hide StrCmp, IsBefore;
  }

  // ---------- Fields ----------

  /** Without modules, and for a bool, m is y. */
  function Lifted(cfg: Config, s: Sym, t: Tristate): Tristate {
    if t == MOD && (s.kind != TristateKind || cfg.modules == NO) then YES else t
  }

  function EvalOr(e: Option<Expr>, missing: Tristate, env: Env): Tristate {
    if e.None? then missing else Eval(e.value, env)
  }

  /** What could only be m is hidden for a tristate member of a choice at y. */
  predicate HiddenMod(cfg: Config, s: Sym, env: Env)
    requires s in cfg.info
  {
    var role := cfg.info[s].role;
    role.Member? && s.kind == TristateKind && env.tri(role.choice) == YES
  }

  /** What an imply gives: nothing where the direct dependency is n. */
  function ImpliedValue(cfg: Config, s: Sym, env: Env): Tristate
    requires s in cfg.info
  {
    if EvalOr(cfg.info[s].dirDep, YES, env) == NO then NO else Lifted(cfg, s, EvalOr(cfg.info[s].implied, NO, env))
  }

  /** The calculated fields by the expressions of the definition; `v` is the highest
      value of the prompts' conditions. Selects do not ask for the direct dependency;
      members have nothing but a visibility. */
  lemma FieldsByExpressions(cfg: Config, user: User, env: Env, s: Sym, v: Tristate)
    requires s in cfg.info && IsHighest(v, cfg.info[s].prompts, HiddenMod(cfg, s, env), env)
    ensures
      var info, c := cfg.info[s], Step(cfg, user, s, env);
      && c.visible == Lifted(cfg, s, v)
      && (info.role.Member? ==> c.dir == c.rev == c.imp == NO)
      && (!info.role.Member? ==>
            && c.dir == Lifted(cfg, s, EvalOr(info.dirDep, YES, env))
            && c.rev == Lifted(cfg, s, EvalOr(info.revDep, NO, env))
            && c.imp == ImpliedValue(cfg, s, env))
  {
    var hidden := HidesMod(cfg, s, env);
    HighestIs(cfg.info[s].prompts, hidden, env);
    HighestIsOne(v, MaxVisible(cfg.info[s].prompts, hidden, env), cfg.info[s].prompts, hidden, env);
    hide IsHighest, MaxVisible, Pick, DefaultValue;
  }

  // ---------- Values ----------

  /** The value before selects raise it: the user's, within the visibility; where the
      symbol is not visible or not answered for, the default or what is implied,
      whichever is higher, and n for a choice. */
  function Unraised(cfg: Config, user: User, s: Sym, env: Env, v: Tristate, d: Tristate): Tristate
    requires s in cfg.info
  {
    if v != NO && s in user.has then Lower(if s in user.stored then user.stored[s] else NO, Lifted(cfg, s, v))
    else if cfg.info[s].role.Choice? then NO
    else Higher(d, ImpliedValue(cfg, s, env))
  }

  /** Raised by selects; m is y also where y is implied. */
  function Raised(cfg: Config, user: User, s: Sym, env: Env, v: Tristate, d: Tristate): Tristate
    requires s in cfg.info
  {
    var t := Higher(Unraised(cfg, user, s, env, v, d), Lifted(cfg, s, EvalOr(cfg.info[s].revDep, NO, env)));
    if ImpliedValue(cfg, s, env) == YES && t == MOD then YES else Lifted(cfg, s, t)
  }

  lemma BaseByExpressions(cfg: Config, user: User, env: Env, s: Sym, v: Tristate, d: Tristate)
    requires s in cfg.info && !cfg.info[s].role.Member?
    requires IsHighest(v, cfg.info[s].prompts, false, env) && IsDefault(d, cfg.info[s].defaults, env)
    ensures Base(cfg, user, s, env).curr == Raised(cfg, user, s, env, v, d)
  {
    HighestIs(cfg.info[s].prompts, false, env);
    HighestIsOne(v, MaxVisible(cfg.info[s].prompts, false, env), cfg.info[s].prompts, false, env);
    DefaultIs(cfg.info[s].defaults, env);
    DefaultIsOne(d, DefaultValue(cfg.info[s].defaults, env), cfg.info[s].defaults, env);
    hide IsHighest, IsDefault, MaxVisible, DefaultValue;
  }

  /** The value of a plain symbol in every solution. In particular it is at least what
      selects it, whatever its direct dependency, its prompts and the user are; and
      without an answer that counts it is the highest of the default, what is implied
      and the selects. */
  lemma ValueByExpressions(cfg: Config, user: User, env: Env, s: Sym, v: Tristate, d: Tristate)
    requires Solves(cfg, user, env) && s in cfg.info && cfg.info[s].role.Plain?
    requires IsHighest(v, cfg.info[s].prompts, false, env) && IsDefault(d, cfg.info[s].defaults, env)
    ensures env.tri(s) == Raised(cfg, user, s, env, v, d)
    ensures env.tri(s) >= EvalOr(cfg.info[s].revDep, NO, env)
    ensures v == NO || s !in user.has ==>
      && env.tri(s) >= d && env.tri(s) >= ImpliedValue(cfg, s, env)
      && (env.tri(s) == NO <==>
            EvalOr(cfg.info[s].revDep, NO, env) == NO && d == NO
            && (EvalOr(cfg.info[s].dirDep, YES, env) == NO || EvalOr(cfg.info[s].implied, NO, env) == NO))
  {
    SolvedBy(cfg, user, env, s);
    BaseByExpressions(cfg, user, env, s, v, d);
    hide Solves, Base, IsHighest, IsDefault;
  }

  /** So for the fields that the evaluator ends with. */
  lemma SpecByExpressions(cfg: Config, user: User, rank: Sym -> nat, s: Sym, v: Tristate, d: Tristate)
    requires WellFormed(cfg) && Ranked(cfg, rank) && s in cfg.info && cfg.info[s].role.Plain?
    requires IsHighest(v, cfg.info[s].prompts, false, SpecEnv(cfg, user, rank))
    requires IsDefault(d, cfg.info[s].defaults, SpecEnv(cfg, user, rank))
    ensures
      var info, env, c := cfg.info[s], SpecEnv(cfg, user, rank), SpecCalc(cfg, user, rank, s);
      && c.curr == env.tri(s) == Raised(cfg, user, s, env, v, d) && c.curr >= EvalOr(info.revDep, NO, env)
      && c.visible == Lifted(cfg, s, v) && c.dir == Lifted(cfg, s, EvalOr(info.dirDep, YES, env))
      && c.rev == Lifted(cfg, s, EvalOr(info.revDep, NO, env)) && c.imp == ImpliedValue(cfg, s, env)
  {
    var env := SpecEnv(cfg, user, rank);
    hide IsHighest, IsDefault, Step, Raised;
    SpecIsStep(cfg, user, rank, s);
    SpecSolves(cfg, user, rank);
    FieldsByExpressions(cfg, user, env, s, v);
    hide WellFormed, Ranked, SpecEnv, SpecCalc;
    SolvedBy(cfg, user, env, s);
    ValueByExpressions(cfg, user, env, s, v, d);
  }

  // ---------- Choices ----------

  /** A symbol shows to a choice at y: a member by its prompts, any other by what is
      remembered of it. */
  ghost predicate Shows(cfg: Config, c: Sym, t: Sym, env: Env)
    requires IsChoice(cfg, c)
  {
    if t in cfg.info[c].role.members && t in cfg.info then
      exists i :: 0 <= i < |cfg.info[t].prompts| && Shown(cfg.info[t].prompts[i], t.kind == TristateKind, env) != NO
    else cfg.seen(t) != NO
  }

  /** The default at `i` is the first that applies and shows. */
  ghost predicate IsPickedDefault(cfg: Config, c: Sym, i: nat, env: Env)
    requires IsChoice(cfg, c)
  {
    var picks := cfg.info[c].role.picks;
    && i < |picks| && Shown(picks[i].cond, false, env) != NO && Shows(cfg, c, picks[i].target, env)
    && forall j :: 0 <= j < i ==> !(Shown(picks[j].cond, false, env) != NO && Shows(cfg, c, picks[j].target, env))
  }

  ghost predicate NoPickedDefault(cfg: Config, c: Sym, env: Env)
    requires IsChoice(cfg, c)
  {
    var picks := cfg.info[c].role.picks;
    forall j :: 0 <= j < |picks| ==> !(Shown(picks[j].cond, false, env) != NO && Shows(cfg, c, picks[j].target, env))
  }

  ghost predicate IsFirstShown(cfg: Config, c: Sym, i: nat, env: Env)
    requires IsChoice(cfg, c)
  {
    var members := cfg.info[c].role.members;
    && i < |members| && Shows(cfg, c, members[i], env)
    && forall j :: 0 <= j < i ==> !Shows(cfg, c, members[j], env)
  }

  /** A choice at y picks `t`: the user's pick if it shows, else what the first default
      names that applies and shows, else the first member that shows. */
  ghost predicate Picks(cfg: Config, user: User, c: Sym, t: Sym, env: Env)
    requires IsChoice(cfg, c)
  {
    if c in user.picks && Shows(cfg, c, user.picks[c], env) then t == user.picks[c]
    else if NoPickedDefault(cfg, c, env) then
      exists i: nat :: IsFirstShown(cfg, c, i, env) && t == cfg.info[c].role.members[i]
    else
      exists i: nat :: IsPickedDefault(cfg, c, i, env) && t == cfg.info[c].role.picks[i].target
  }

  lemma ShowsIs(cfg: Config, c: Sym, t: Sym, env: Env)
    requires OwnMembers(cfg, c) && env.tri(c) == YES
    ensures Shows(cfg, c, t, env) <==> TargetVisible(cfg, cfg.info[c].role.members, t, env) != NO
  {
    if t in cfg.info[c].role.members && t in cfg.info {
      assert IsMemberOf(cfg, t, c);
      HighestIs(cfg.info[t].prompts, HidesMod(cfg, t, env), env);
      hide MaxVisible;
    }
  }

  lemma {:induction false} FirstDefaultIs(cfg: Config, c: Sym, i: nat, env: Env)
    requires OwnMembers(cfg, c) && env.tri(c) == YES && i <= |cfg.info[c].role.picks|
    requires forall j :: 0 <= j < i ==>
      !(Shown(cfg.info[c].role.picks[j].cond, false, env) != NO && Shows(cfg, c, cfg.info[c].role.picks[j].target, env))
    ensures
      var role := cfg.info[c].role;
      var t := FirstDefault(cfg, role.members, role.picks[i..], env);
      if t.None? then NoPickedDefault(cfg, c, env)
      else exists k: nat :: IsPickedDefault(cfg, c, k, env) && t.value == role.picks[k].target
    decreases |cfg.info[c].role.picks| - i
  {
    hide Shows, TargetVisible;
    var role := cfg.info[c].role;
    if i < |role.picks| {
      ShowsIs(cfg, c, role.picks[i].target, env);
      assert role.picks[i..][1..] == role.picks[i + 1..];
      if Shown(role.picks[i].cond, false, env) != NO && Shows(cfg, c, role.picks[i].target, env) {
        assert IsPickedDefault(cfg, c, i, env);
      } else {
        FirstDefaultIs(cfg, c, i + 1, env);
      }
    }
  }

  lemma {:induction false} FirstVisibleIs(cfg: Config, c: Sym, i: nat, env: Env)
    requires OwnMembers(cfg, c) && env.tri(c) == YES && i <= |cfg.info[c].role.members|
    requires forall j :: 0 <= j < i ==> !Shows(cfg, c, cfg.info[c].role.members[j], env)
    ensures
      var members := cfg.info[c].role.members;
      var t := FirstVisible(cfg, members, members[i..], env);
      if t.None? then forall j :: 0 <= j < |members| ==> !Shows(cfg, c, members[j], env)
      else exists k: nat :: IsFirstShown(cfg, c, k, env) && t.value == members[k]
    decreases |cfg.info[c].role.members| - i
  {
    hide Shows, TargetVisible;
    var members := cfg.info[c].role.members;
    if i < |members| {
      ShowsIs(cfg, c, members[i], env);
      assert members[i..][1..] == members[i + 1..];
      if Shows(cfg, c, members[i], env) {
        assert IsFirstShown(cfg, c, i, env);
      } else {
        FirstVisibleIs(cfg, c, i + 1, env);
      }
    }
  }

  /** With the choice at y. */
  lemma PickWhenYesIs(cfg: Config, user: User, c: Sym, env: Env)
    requires OwnMembers(cfg, c) && env.tri(c) == YES
    ensures forall t: Sym :: PickWhenYes(cfg, user, c, env) == Some(t) <==> Picks(cfg, user, c, t, env)
  {
    var role := cfg.info[c].role;
    assert role.picks[0..] == role.picks && role.members[0..] == role.members;
    if c in user.picks { ShowsIs(cfg, c, user.picks[c], env); }
    FirstDefaultIs(cfg, c, 0, env);
    FirstVisibleIs(cfg, c, 0, env);
    PicksOne(cfg, user, c, env);
    hide Shows, TargetVisible, FirstDefault, FirstVisible, NoPickedDefault, IsFirstShown, IsPickedDefault;
  }

  lemma PicksOne(cfg: Config, user: User, c: Sym, env: Env)
    requires IsChoice(cfg, c)
    ensures forall i: nat, j: nat :: IsFirstShown(cfg, c, i, env) && IsFirstShown(cfg, c, j, env) ==> i == j
    ensures forall i: nat, j: nat :: IsPickedDefault(cfg, c, i, env) && IsPickedDefault(cfg, c, j, env) ==> i == j
    ensures forall i: nat :: IsPickedDefault(cfg, c, i, env) ==> !NoPickedDefault(cfg, c, env)
  {
    hide Shows;
  }

  /** A choice in every solution: what its prompts, the user and its selects make of it,
      but n where that is y and nothing can be picked. What it then picks is as said. */
  lemma ChoiceByExpressions(cfg: Config, user: User, env: Env, c: Sym, v: Tristate)
    requires WellFormed(cfg) && Solves(cfg, user, env) && IsChoice(cfg, c)
    requires IsHighest(v, cfg.info[c].prompts, false, env)
    ensures
      var t := Raised(cfg, user, c, env, v, NO);
      env.tri(c) == if t == YES && !(exists x: Sym :: Picks(cfg, user, c, x, SetTri(cfg, env, c, YES))) then NO else t
    ensures env.tri(c) == YES ==>
      forall x: Sym :: Step(cfg, user, c, env).pick == Some(x) <==> Picks(cfg, user, c, x, SetTri(cfg, env, c, YES))
  {
    SolvedBy(cfg, user, env, c);
    ChoiceBase(cfg, user, env, c, v);
    assert OwnMembers(cfg, c);
    PickWhenYesIs(cfg, user, c, SetTri(cfg, env, c, YES));
    hide Solves, WellFormed, Base, IsHighest, IsDefault, Picks, PickWhenYes, SetTri, Raised;
    var p := Pick(cfg, user, c, env);
    if p.Some? { assert Picks(cfg, user, c, p.value, SetTri(cfg, env, c, YES)); }
  }

  lemma ChoiceBase(cfg: Config, user: User, env: Env, c: Sym, v: Tristate)
    requires IsChoice(cfg, c) && IsHighest(v, cfg.info[c].prompts, false, env)
    ensures Base(cfg, user, c, env).curr == Raised(cfg, user, c, env, v, NO)
  {
    DefaultIs(cfg.info[c].defaults, env);
    BaseByExpressions(cfg, user, env, c, v, DefaultValue(cfg.info[c].defaults, env));
  }

  // ---------- Members ----------

  /** A member in every solution. As visible as y it is y exactly if its choice picks
      it; otherwise it is the user's value, at most m, or its default. */
  lemma MemberByExpressions(cfg: Config, user: User, env: Env, s: Sym, c: Sym, v: Tristate, d: Tristate)
    requires WellFormed(cfg) && Solves(cfg, user, env) && IsMemberOf(cfg, s, c) && IsChoice(cfg, c)
    requires IsHighest(v, cfg.info[s].prompts, HiddenMod(cfg, s, env), env) && IsDefault(d, cfg.info[s].defaults, env)
    ensures
      env.tri(s) ==
        if Lifted(cfg, s, v) == YES then
          (if env.tri(c) == YES && Picks(cfg, user, c, s, SetTri(cfg, env, c, YES)) then YES else NO)
        else if v != NO && s in user.has then Lower(if s in user.stored then user.stored[s] else NO, v)
        else Lifted(cfg, s, d)
  {
    SolvedBy(cfg, user, env, s);
    SolvedBy(cfg, user, env, c);
    HighestIs(cfg.info[c].prompts, false, env);
    ChoiceByExpressions(cfg, user, env, c, MaxVisible(cfg.info[c].prompts, false, env));
    ChoiceStepPicks(cfg, user, c, env);
    MemberFieldsBy(cfg, user, env, s, c, v, d);
    hide Solves, WellFormed, ChoiceStep, IsHighest, IsDefault, Picks, SetTri, Raised, MaxVisible, Step;
  }

  lemma ChoiceStepPicks(cfg: Config, user: User, c: Sym, env: Env)
    requires IsChoice(cfg, c)
    ensures Step(cfg, user, c, env) == ChoiceStep(cfg, user, c, env)
    ensures ChoiceStep(cfg, user, c, env).pick.Some? ==> ChoiceStep(cfg, user, c, env).curr == YES
  {
    hide Base, Pick;
    assert Base(cfg, user, c, env).pick == None by { NoPick(cfg, user, c, env); }
  }

  lemma NoPick(cfg: Config, user: User, c: Sym, env: Env)
    requires c in cfg.info
    ensures Base(cfg, user, c, env).pick == None
  {
  }

  lemma MemberFieldsBy(cfg: Config, user: User, env: Env, s: Sym, c: Sym, v: Tristate, d: Tristate)
    requires IsMemberOf(cfg, s, c) && IsChoice(cfg, c)
    requires IsHighest(v, cfg.info[s].prompts, HiddenMod(cfg, s, env), env) && IsDefault(d, cfg.info[s].defaults, env)
    ensures
      Step(cfg, user, s, env).curr ==
        if Lifted(cfg, s, v) == YES then (if ChoiceStep(cfg, user, c, env).pick == Some(s) then YES else NO)
        else if v != NO && s in user.has then Lower(if s in user.stored then user.stored[s] else NO, v)
        else Lifted(cfg, s, d)
  {
    var hidden := HidesMod(cfg, s, env);
    HighestIs(cfg.info[s].prompts, hidden, env);
    HighestIsOne(v, MaxVisible(cfg.info[s].prompts, hidden, env), cfg.info[s].prompts, hidden, env);
    DefaultIs(cfg.info[s].defaults, env);
    DefaultIsOne(d, DefaultValue(cfg.info[s].defaults, env), cfg.info[s].defaults, env);
    hide IsHighest, IsDefault, MaxVisible, DefaultValue, ChoiceStep;
  }

  // ---------- Lines ----------

  /** A symbol asks for a line exactly if a prompt shows, or something selects it, or,
      unless it is a choice, it has a default or something implies it. */
  lemma WrittenByExpressions(cfg: Config, user: User, env: Env, s: Sym, v: Tristate, d: Tristate)
    requires s in cfg.info
    requires IsHighest(v, cfg.info[s].prompts, HiddenMod(cfg, s, env), env) && IsDefault(d, cfg.info[s].defaults, env)
    ensures
      var info := cfg.info[s];
      Written(cfg, user, s, env) <==>
        || v != NO
        || (!info.role.Member? && EvalOr(info.revDep, NO, env) != NO)
        || (!info.role.Choice? && (d != NO || (!info.role.Member? && ImpliedValue(cfg, s, env) != NO)))
  {
    var hidden := HidesMod(cfg, s, env);
    HighestIs(cfg.info[s].prompts, hidden, env);
    HighestIsOne(v, MaxVisible(cfg.info[s].prompts, hidden, env), cfg.info[s].prompts, hidden, env);
    DefaultIs(cfg.info[s].defaults, env);
    DefaultIsOne(d, DefaultValue(cfg.info[s].defaults, env), cfg.info[s].defaults, env);
    hide IsHighest, IsDefault, MaxVisible, DefaultValue;
  }
}
