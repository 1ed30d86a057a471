/** What the value of a bool or tristate symbol is, choices and their members
    among them: a definition without caches and without an order of evaluation. */
module Calculation {
  import opened Options
  import opened Tristates
  import opened Exprs

  datatype Default = Default(cond: Option<Expr>, value: Expr)

  /** A default of a choice names the member to pick. */
  datatype PickDefault = PickDefault(cond: Option<Expr>, target: Sym)

  /** A choice picks one of its members. */
  datatype Role =
    | Plain
    | Choice(members: seq<Sym>, picks: seq<PickDefault>)
    | Member(choice: Sym)

  /** One symbol: the conditions of its prompts, its three kinds of
      dependencies, its defaults in order, and its part in a choice. */
  datatype SymInfo = SymInfo(
    prompts: seq<Option<Expr>>,
    dirDep: Option<Expr>,
    revDep: Option<Expr>,
    implied: Option<Expr>,
    defaults: seq<Default>,
    role: Role)

  /** The configured symbols, which are bool or tristate; for symbols of other
      kinds (the constants and undefined symbols) their text, and the number it
      spells, if any. `modules` is the value of the modules symbol, `seen` what is
      remembered of the visibility of a choice's default that is no member. */
  datatype Config = Config(
    info: map<Sym, SymInfo>,
    text: Sym -> string,
    number: Sym -> Option<int>,
    modules: Tristate,
    seen: Sym -> Tristate)

  /** The user's values: what is stored, for which symbols it counts, and the
      members picked in choices. */
  datatype User = User(stored: map<Sym, Tristate>, has: set<Sym>, picks: map<Sym, Sym>)

  function Stored(user: User, s: Sym): Tristate {
    if s in user.stored then user.stored[s] else NO
  }

  predicate IsChoice(cfg: Config, s: Sym) {
    s in cfg.info && cfg.info[s].role.Choice?
  }

  predicate IsMemberOf(cfg: Config, s: Sym, c: Sym) {
    s in cfg.info && cfg.info[s].role == Member(c)
  }

  /** Members belong to a choice, and choices consist of members. */
  ghost predicate Consistent(cfg: Config) {
    && (forall s :: s in cfg.info && cfg.info[s].role.Member? ==> IsChoice(cfg, cfg.info[s].role.choice))
    && (forall s, m :: s in cfg.info && cfg.info[s].role.Choice? && m in cfg.info[s].role.members ==>
          m in cfg.info && cfg.info[m].role.Member?)
  }

  /** `e` is a conjunction that never exceeds `c`; with `full` it is n unless `c`
      is y. */
  predicate BoundedBy(e: Expr, c: Sym, full: bool) {
    match e
    case Bin(op, a, b) => op.AndOp? && (BoundedBy(a, c, full) || BoundedBy(b, c, full))
    case Symbol(t) => t == SYM_NO || (t == c && !full)
    case Comp(rel, l, r) => rel.Eq? && l == c && r == SYM_YES
    case Not(_) => false
  }

  /** The condition of a member's prompt carries the dependency on its choice;
      members other than tristate ones need a tristate choice to be y. */
  predicate MemberPrompt(p: Option<Expr>, m: Sym, c: Sym) {
    p.Some? && BoundedBy(p.value, c, c.kind.TristateKind? && !m.kind.TristateKind?)
  }

  /** Every member is one of the choice that it names, and no more visible than
      that; the constants y, m and n are spelled so. */
  ghost predicate WellFormed(cfg: Config) {
    && Consistent(cfg)
    && (forall s :: s in cfg.info ==> IsTriKind(s))
    && (forall s: Sym :: IsTriConst(s) ==> cfg.text(s) == TriText(s.id) && cfg.number(s) == None)
    && (forall s, m :: IsChoice(cfg, s) && m in cfg.info[s].role.members ==> IsMemberOf(cfg, m, s))
    && (forall m, c :: IsMemberOf(cfg, m, c) ==>
          (m in cfg.info[c].role.members && forall p :: p in cfg.info[m].prompts ==> MemberPrompt(p, m, c)))
  }

  function TriText(t: Tristate): string {
    if t == NO then "n" else if t == MOD then "m" else "y"
  }

  /** The calculated fields of a symbol. */
  datatype Calc = Calc(
    curr: Tristate,
    visible: Tristate,
    dir: Tristate,
    rev: Tristate,
    imp: Tristate,
    pick: Option<Sym>)

  const BLANK := Calc(NO, NO, NO, NO, NO, None)

  /** Tristate symbols act as bools while there are no modules. */
  predicate ActsAsBool(cfg: Config, s: Sym) {
    !s.kind.TristateKind? || cfg.modules == NO
  }

  function PromoteIf(b: bool, t: Tristate): Tristate {
    if t == MOD && b then YES else t
  }

  // ---------- Comparisons ----------

  function StrCmp(a: string, b: string): int {
    if a == [] && b == [] then 0
    else if a == [] then -1
    else if b == [] then 1
    else if a[0] != b[0] then (if a[0] < b[0] then -1 else 1)
    else StrCmp(a[1..], b[1..])
  }

  lemma {:induction false} StrCmpZero(a: string, b: string)
    ensures StrCmp(a, b) == 0 <==> a == b
  {
    if a != [] && b != [] {
      StrCmpZero(a[1..], b[1..]);
      if a[0] == b[0] && a[1..] == b[1..] {
        assert a == [a[0]] + a[1..];
        assert b == [b[0]] + b[1..];
      }
    }
  }

  function TextOf(cfg: Config, s: Sym, v: Tristate): string {
    if IsTriKind(s) then TriText(v) else cfg.text(s)
  }

  function NumberOf(cfg: Config, s: Sym, v: Tristate): Option<int> {
    if IsTriKind(s) then Some(v) else cfg.number(s)
  }

  /** A 64-bit word read without sign. */
  function Unsigned(x: int): int {
    x % 0x1_0000_0000_0000_0000
  }

  /** Numerically where both sides are numbers, by text otherwise and between
      string symbols; without sign as soon as one side is hexadecimal. */
  function Compare(cfg: Config, l: Sym, r: Sym, lv: Tristate, rv: Tristate): int {
    var a, b := NumberOf(cfg, l, lv), NumberOf(cfg, r, rv);
    if a.None? || b.None? || (l.kind.Str? && r.kind.Str?) then StrCmp(TextOf(cfg, l, lv), TextOf(cfg, r, rv))
    else if l.kind.Hex? || r.kind.Hex? then Unsigned(a.value) - Unsigned(b.value)
    else a.value - b.value
  }

  /** The value of a symbol that is not configured: y, m and n themselves, n for
      an undefined symbol. */
  function FixedValue(s: Sym): Tristate {
    if s == SYM_MOD then MOD else if s == SYM_YES then YES else NO
  }

  // ---------- One symbol, given the others ----------

  /** One prompt; `hidden` prompts with the value m do not count. */
  function PromptValue(p: Option<Expr>, hidden: bool, env: Env): Tristate {
    var v := EvalOpt(p, env);
    if hidden && v == MOD then NO else v
  }

  function MaxVisible(prompts: seq<Option<Expr>>, hidden: bool, env: Env): Tristate {
    if prompts == [] then NO
    else TriOr(PromptValue(prompts[0], hidden, env), MaxVisible(prompts[1..], hidden, env))
  }

  /** The first default whose condition is not n, bounded by that condition. */
  function DefaultValue(defaults: seq<Default>, env: Env): Tristate {
    if defaults == [] then NO
    else if EvalOpt(defaults[0].cond, env) != NO then
      TriAnd(Eval(defaults[0].value, env), EvalOpt(defaults[0].cond, env))
    else DefaultValue(defaults[1..], env)
  }

  function DepValue(dep: Option<Expr>, missing: Tristate, env: Env): Tristate {
    if dep.None? then missing else Eval(dep.value, env)
  }

  /** A tristate member that could only be m is hidden while its choice is y. */
  function HidesMod(cfg: Config, s: Sym, env: Env): bool
    requires s in cfg.info
  {
    var role := cfg.info[s].role;
    role.Member? && s.kind.TristateKind? && env.tri(role.choice) == YES
  }

  function Visibility(cfg: Config, s: Sym, env: Env): Tristate
    requires s in cfg.info
  {
    PromoteIf(ActsAsBool(cfg, s), MaxVisible(cfg.info[s].prompts, HidesMod(cfg, s, env), env))
  }

  /** What the symbol is before selects raise it; choices have no default. */
  function OwnValue(user: User, s: Sym, info: SymInfo, visible: Tristate, imp: Tristate, env: Env): Tristate {
    if visible != NO && s in user.has then TriAnd(Stored(user, s), visible)
    else if info.role.Choice? then NO
    else TriOr(DefaultValue(info.defaults, env), imp)
  }

  /** The symbol as if there were no choices; members have no dependencies of
      their own. */
  function Base(cfg: Config, user: User, s: Sym, env: Env): Calc
    requires s in cfg.info
  {
    var info := cfg.info[s];
    var asBool, member := ActsAsBool(cfg, s), info.role.Member?;
    var visible := Visibility(cfg, s, env);
    var dir := if member then NO else PromoteIf(asBool, DepValue(info.dirDep, YES, env));
    var rev := if member then NO else PromoteIf(asBool, DepValue(info.revDep, NO, env));
    var imp := if member || dir == NO then NO else PromoteIf(asBool, DepValue(info.implied, NO, env));
    var raised := TriOr(OwnValue(user, s, info, visible, imp, env), rev);
    Calc(PromoteIf(asBool || imp == YES, raised), visible, dir, rev, imp, None)
  }

  // ---------- Choices ----------

  /** The same assignment but for the value of `c`. */
  function SetTri(cfg: Config, env: Env, c: Sym, v: Tristate): (r: Env)
    ensures forall t: Sym :: r.tri(t) == if t == c then v else env.tri(t)
  {
    var tri := (t: Sym) => var w: Tristate := if t == c then v else env.tri(t); w;
    Env(tri, (l: Sym, r: Sym) => if l == c || r == c then Compare(cfg, l, r, tri(l), tri(r)) else env.cmp(l, r))
  }

  /** How visible a symbol is that may be picked. */
  function TargetVisible(cfg: Config, members: seq<Sym>, t: Sym, env: Env): Tristate {
    if t in members && t in cfg.info then Visibility(cfg, t, env) else cfg.seen(t)
  }

  /** The first default that applies and is visible. */
  function FirstDefault(cfg: Config, members: seq<Sym>, picks: seq<PickDefault>, env: Env): (t: Option<Sym>)
    ensures t.Some? ==> TargetVisible(cfg, members, t.value, env) != NO
  {
    if picks == [] then None
    else if EvalOpt(picks[0].cond, env) != NO && TargetVisible(cfg, members, picks[0].target, env) != NO then Some(picks[0].target)
    else FirstDefault(cfg, members, picks[1..], env)
  }

  /** The first visible one of `rest`. */
  function FirstVisible(cfg: Config, members: seq<Sym>, rest: seq<Sym>, env: Env): (t: Option<Sym>)
    ensures t.Some? ==> t.value in rest && TargetVisible(cfg, members, t.value, env) != NO
    ensures t.None? ==> forall m :: m in rest ==> TargetVisible(cfg, members, m, env) == NO
  {
    if rest == [] then None
    else if TargetVisible(cfg, members, rest[0], env) != NO then Some(rest[0])
    else FirstVisible(cfg, members, rest[1..], env)
  }

  function DefaultPick(cfg: Config, c: Sym, env: Env): (t: Option<Sym>)
    requires IsChoice(cfg, c)
  {
    var role := cfg.info[c].role;
    var d := FirstDefault(cfg, role.members, role.picks, env);
    if d.Some? then d else FirstVisible(cfg, role.members, role.members, env)
  }

  /** With the choice at y: the user's pick if it is visible, else the first
      default that applies, else the first visible member. */
  function PickWhenYes(cfg: Config, user: User, c: Sym, env: Env): (t: Option<Sym>)
    requires IsChoice(cfg, c)
    ensures t.Some? ==> TargetVisible(cfg, cfg.info[c].role.members, t.value, env) != NO
    ensures t.None? ==> forall m :: m in cfg.info[c].role.members ==> TargetVisible(cfg, cfg.info[c].role.members, m, env) == NO
  {
    if c in user.picks && TargetVisible(cfg, cfg.info[c].role.members, user.picks[c], env) != NO then Some(user.picks[c])
    else DefaultPick(cfg, c, env)
  }

  function Pick(cfg: Config, user: User, c: Sym, env: Env): Option<Sym>
    requires IsChoice(cfg, c)
  {
    PickWhenYes(cfg, user, c, SetTri(cfg, env, c, YES))
  }

  /** A choice that is y picks; it falls to n if nothing can be picked. */
  function ChoiceStep(cfg: Config, user: User, c: Sym, env: Env): Calc
    requires IsChoice(cfg, c)
  {
    var b := Base(cfg, user, c, env);
    if b.curr != YES then b
    else
      var p := Pick(cfg, user, c, env);
      b.(curr := if p.None? then NO else YES, pick := p)
  }

  /** A member that is y for its choice is y exactly if it is the one picked. */
  function MemberStep(cfg: Config, user: User, s: Sym, c: Sym, env: Env): Calc
    requires s in cfg.info
  {
    var b := Base(cfg, user, s, env);
    if b.visible != YES then b
    else b.(curr := if IsChoice(cfg, c) && ChoiceStep(cfg, user, c, env).pick == Some(s) then YES else NO)
  }

  /** The calculated fields of one symbol, given the values of the others. */
  function Step(cfg: Config, user: User, s: Sym, env: Env): Calc
    requires s in cfg.info
  {
    match cfg.info[s].role
    case Plain => Base(cfg, user, s, env)
    case Choice(_, _) => ChoiceStep(cfg, user, s, env)
    case Member(c) => MemberStep(cfg, user, s, c, env)
  }

  /** Whether the symbol gets a line in the configuration file. */
  function Written(cfg: Config, user: User, s: Sym, env: Env): bool
    requires s in cfg.info
  {
    var c := Base(cfg, user, s, env);
    || c.visible != NO
    || c.rev != NO
    || (!cfg.info[s].role.Choice? && (DefaultValue(cfg.info[s].defaults, env) != NO || c.imp != NO))
  }

  // ---------- The symbols a symbol reads ----------

  function SymsOf(e: Expr): set<Sym> {
    match e
    case Symbol(s) => {s}
    case Comp(_, l, r) => {l, r}
    case Not(a) => SymsOf(a)
    case Bin(_, a, b) => SymsOf(a) + SymsOf(b)
  }

  function SymsOfOpt(e: Option<Expr>): set<Sym> {
    if e.None? then {} else SymsOf(e.value)
  }

  function SymsOfPrompts(p: seq<Option<Expr>>): set<Sym> {
    if p == [] then {} else SymsOfOpt(p[0]) + SymsOfPrompts(p[1..])
  }

  function SymsOfDefaults(d: seq<Default>): set<Sym> {
    if d == [] then {} else SymsOfOpt(d[0].cond) + SymsOf(d[0].value) + SymsOfDefaults(d[1..])
  }

  function SymsOfPicks(p: seq<PickDefault>): set<Sym> {
    if p == [] then {} else SymsOfOpt(p[0].cond) + SymsOfPicks(p[1..])
  }

  /** What the prompts of the members read. */
  function SymsOfMembers(cfg: Config, members: seq<Sym>): set<Sym> {
    if members == [] then {}
    else (if members[0] in cfg.info then SymsOfPrompts(cfg.info[members[0]].prompts) else {}) + SymsOfMembers(cfg, members[1..])
  }

  /** What a choice reads to pick, beside itself. */
  function PickReads(cfg: Config, c: Sym): set<Sym> {
    if !IsChoice(cfg, c) then {}
    else SymsOfPicks(cfg.info[c].role.picks) + SymsOfMembers(cfg, cfg.info[c].role.members) - {c}
  }

  function BaseReads(cfg: Config, s: Sym): set<Sym>
    requires s in cfg.info
  {
    var info := cfg.info[s];
    SymsOfPrompts(info.prompts)
    + (if info.role.Member? then {info.role.choice} else SymsOfOpt(info.dirDep) + SymsOfOpt(info.revDep) + SymsOfOpt(info.implied))
    + (if info.role.Choice? then {} else SymsOfDefaults(info.defaults))
  }

  function ChoiceReads(cfg: Config, c: Sym): set<Sym> {
    if IsChoice(cfg, c) then BaseReads(cfg, c) + PickReads(cfg, c) else {}
  }

  function Reads(cfg: Config, s: Sym): set<Sym>
    requires s in cfg.info
  {
    match cfg.info[s].role
    case Plain => BaseReads(cfg, s)
    case Choice(_, _) => ChoiceReads(cfg, s)
    case Member(c) => BaseReads(cfg, s) + ChoiceReads(cfg, c)
  }

  /** `rank` witnesses that no symbol reads itself, directly or not. */
  ghost predicate Ranked(cfg: Config, rank: Sym -> nat) {
    forall s, t {:trigger t in Reads(cfg, s)} :: s in cfg.info && t in cfg.info && t in Reads(cfg, s) ==> rank(t) < rank(s)
  }

  // ---------- All symbols ----------

  /** The assignment given by the values of the symbols ranked below `b`. */
  ghost function EnvBelow(cfg: Config, user: User, rank: Sym -> nat, b: nat): (env: Env)
    requires Ranked(cfg, rank)
    decreases b, 0
  {
    var tri: Sym -> Tristate := (t: Sym) =>
      var v: Tristate := if t in cfg.info && rank(t) < b then SpecCalc(cfg, user, rank, t).curr else FixedValue(t); v;
    Env(tri, (l: Sym, r: Sym) => Compare(cfg, l, r, tri(l), tri(r)))
  }

  /** The calculated fields of a symbol, by recursion on the rank. */
  ghost function SpecCalc(cfg: Config, user: User, rank: Sym -> nat, s: Sym): Calc
    requires Ranked(cfg, rank) && s in cfg.info
    decreases rank(s), 1
  {
    Step(cfg, user, s, EnvBelow(cfg, user, rank, rank(s)))
  }

  /** The assignment given by the values of all symbols. */
  ghost function SpecEnv(cfg: Config, user: User, rank: Sym -> nat): (env: Env)
    requires Ranked(cfg, rank)
  {
    var tri: Sym -> Tristate := (t: Sym) =>
      var v: Tristate := if t in cfg.info then SpecCalc(cfg, user, rank, t).curr else FixedValue(t); v;
    Env(tri, (l: Sym, r: Sym) => Compare(cfg, l, r, tri(l), tri(r)))
  }

  lemma SpecEnvValues(cfg: Config, user: User, rank: Sym -> nat, s: Sym)
    requires Ranked(cfg, rank)
    ensures SpecEnv(cfg, user, rank).tri(s) ==
      if s in cfg.info then SpecCalc(cfg, user, rank, s).curr else FixedValue(s)
  {
  }

  lemma SpecEnvCompares(cfg: Config, user: User, rank: Sym -> nat, l: Sym, r: Sym)
    requires Ranked(cfg, rank)
    ensures
      var env := SpecEnv(cfg, user, rank);
      env.cmp(l, r) == Compare(cfg, l, r, env.tri(l), env.tri(r))
  {
  }

  // ---------- Only what is read matters ----------

  ghost predicate AgreeOn(env1: Env, env2: Env, syms: set<Sym>) {
    && (forall t :: t in syms ==> env1.tri(t) == env2.tri(t))
    && (forall t, u :: t in syms && u in syms ==> env1.cmp(t, u) == env2.cmp(t, u))
  }

  lemma {:induction false} EvalReads(e: Expr, env1: Env, env2: Env)
    requires AgreeOn(env1, env2, SymsOf(e))
    ensures Eval(e, env1) == Eval(e, env2)
  {
    match e
    case Not(a) => EvalReads(a, env1, env2);
    case Bin(_, a, b) =>
      EvalReads(a, env1, env2);
      EvalReads(b, env1, env2);
    case _ =>
  }

  lemma EvalOptReads(e: Option<Expr>, env1: Env, env2: Env)
    requires AgreeOn(env1, env2, SymsOfOpt(e))
    ensures EvalOpt(e, env1) == EvalOpt(e, env2)
    ensures forall d: Tristate :: DepValue(e, d, env1) == DepValue(e, d, env2)
  {
    if e.Some? { EvalReads(e.value, env1, env2); }
  }

  lemma {:induction false} PromptsRead(p: seq<Option<Expr>>, hidden: bool, env1: Env, env2: Env)
    requires AgreeOn(env1, env2, SymsOfPrompts(p))
    ensures MaxVisible(p, hidden, env1) == MaxVisible(p, hidden, env2)
  {
    if p != [] {
      EvalOptReads(p[0], env1, env2);
      PromptsRead(p[1..], hidden, env1, env2);
    }
  }

  lemma {:induction false} DefaultsRead(d: seq<Default>, env1: Env, env2: Env)
    requires AgreeOn(env1, env2, SymsOfDefaults(d))
    ensures DefaultValue(d, env1) == DefaultValue(d, env2)
  {
    if d != [] {
      EvalOptReads(d[0].cond, env1, env2);
      EvalReads(d[0].value, env1, env2);
      DefaultsRead(d[1..], env1, env2);
    }
  }

  lemma BaseReading(cfg: Config, user: User, s: Sym, env1: Env, env2: Env)
    requires s in cfg.info && AgreeOn(env1, env2, BaseReads(cfg, s))
    ensures Base(cfg, user, s, env1) == Base(cfg, user, s, env2)
    ensures Written(cfg, user, s, env1) == Written(cfg, user, s, env2)
  {
    var info := cfg.info[s];
    PromptsRead(info.prompts, HidesMod(cfg, s, env1), env1, env2);
    if !info.role.Member? {
      EvalOptReads(info.dirDep, env1, env2);
      EvalOptReads(info.revDep, env1, env2);
      EvalOptReads(info.implied, env1, env2);
    }
    if !info.role.Choice? {
      DefaultsRead(info.defaults, env1, env2);
    }
  }

  lemma {:induction false} MemberReads(cfg: Config, members: seq<Sym>, m: Sym)
    requires m in members && m in cfg.info
    ensures SymsOfPrompts(cfg.info[m].prompts) <= SymsOfMembers(cfg, members)
  {
    if members[0] != m { MemberReads(cfg, members[1..], m); }
  }

  /** The two assignments agree on what a choice reads to pick, itself included. */
  ghost predicate AgreeToPick(cfg: Config, members: seq<Sym>, env1: Env, env2: Env) {
    && AgreeOn(env1, env2, SymsOfMembers(cfg, members))
    && (forall m :: m in members && m in cfg.info ==> HidesMod(cfg, m, env1) == HidesMod(cfg, m, env2))
  }

  lemma TargetReads(cfg: Config, members: seq<Sym>, t: Sym, env1: Env, env2: Env)
    requires AgreeToPick(cfg, members, env1, env2)
    ensures TargetVisible(cfg, members, t, env1) == TargetVisible(cfg, members, t, env2)
  {
    if t in members && t in cfg.info {
      MemberReads(cfg, members, t);
      PromptsRead(cfg.info[t].prompts, HidesMod(cfg, t, env1), env1, env2);
    }
  }

  lemma {:induction false} FirstDefaultReads(cfg: Config, members: seq<Sym>, picks: seq<PickDefault>, env1: Env, env2: Env)
    requires AgreeToPick(cfg, members, env1, env2) && AgreeOn(env1, env2, SymsOfPicks(picks))
    ensures FirstDefault(cfg, members, picks, env1) == FirstDefault(cfg, members, picks, env2)
  {
    if picks != [] {
      TargetReads(cfg, members, picks[0].target, env1, env2);
      EvalOptReads(picks[0].cond, env1, env2);
      FirstDefaultReads(cfg, members, picks[1..], env1, env2);
    }
  }

  lemma {:induction false} FirstVisibleReads(cfg: Config, members: seq<Sym>, rest: seq<Sym>, env1: Env, env2: Env)
    requires AgreeToPick(cfg, members, env1, env2)
    ensures FirstVisible(cfg, members, rest, env1) == FirstVisible(cfg, members, rest, env2)
  {
    if rest != [] {
      TargetReads(cfg, members, rest[0], env1, env2);
      FirstVisibleReads(cfg, members, rest[1..], env1, env2);
    }
  }

  lemma PickWhenYesReads(cfg: Config, user: User, c: Sym, env1: Env, env2: Env)
    requires IsChoice(cfg, c) && AgreeToPick(cfg, cfg.info[c].role.members, env1, env2)
    requires AgreeOn(env1, env2, SymsOfPicks(cfg.info[c].role.picks))
    ensures PickWhenYes(cfg, user, c, env1) == PickWhenYes(cfg, user, c, env2)
  {
    var role := cfg.info[c].role;
    if c in user.picks {
      TargetReads(cfg, role.members, user.picks[c], env1, env2);
    }
    FirstDefaultReads(cfg, role.members, role.picks, env1, env2);
    FirstVisibleReads(cfg, role.members, role.members, env1, env2);
  }

  /** The members name this choice. */
  ghost predicate OwnMembers(cfg: Config, c: Sym) {
    IsChoice(cfg, c) && forall m :: m in cfg.info[c].role.members ==> IsMemberOf(cfg, m, c)
  }

  lemma SetTriAgree(cfg: Config, env1: Env, env2: Env, c: Sym, syms: set<Sym>)
    requires AgreeOn(env1, env2, syms - {c})
    ensures AgreeOn(SetTri(cfg, env1, c, YES), SetTri(cfg, env2, c, YES), syms)
  {
  }

  lemma ChoiceReading(cfg: Config, user: User, c: Sym, env1: Env, env2: Env)
    requires OwnMembers(cfg, c) && AgreeOn(env1, env2, ChoiceReads(cfg, c))
    ensures ChoiceStep(cfg, user, c, env1) == ChoiceStep(cfg, user, c, env2)
  {
    hide Base, PickWhenYes, SetTri;
    var role := cfg.info[c].role;
    BaseReading(cfg, user, c, env1, env2);
    SetTriAgree(cfg, env1, env2, c, SymsOfPicks(role.picks) + SymsOfMembers(cfg, role.members));
    PickWhenYesReads(cfg, user, c, SetTri(cfg, env1, c, YES), SetTri(cfg, env2, c, YES));
  }

  lemma StepReads(cfg: Config, user: User, s: Sym, env1: Env, env2: Env)
    requires WellFormed(cfg) && s in cfg.info && AgreeOn(env1, env2, Reads(cfg, s))
    ensures Step(cfg, user, s, env1) == Step(cfg, user, s, env2)
    ensures Written(cfg, user, s, env1) == Written(cfg, user, s, env2)
  {
    BaseReading(cfg, user, s, env1, env2);
    if cfg.info[s].role.Choice? {
      ChoiceReading(cfg, user, s, env1, env2);
    } else if cfg.info[s].role.Member? {
      assert IsMemberOf(cfg, s, cfg.info[s].role.choice);
      ChoiceReading(cfg, user, cfg.info[s].role.choice, env1, env2);
    }
  }

  /** The users have answered for `s` alike. */
  ghost predicate SameFor(user1: User, user2: User, s: Sym) {
    && (s in user1.has <==> s in user2.has) && (s in user1.has ==> Stored(user1, s) == Stored(user2, s))
    && (s in user1.picks <==> s in user2.picks) && (s in user1.picks ==> user1.picks[s] == user2.picks[s])
  }

  lemma SameBase(cfg: Config, user1: User, user2: User, s: Sym, env: Env)
    requires s in cfg.info && SameFor(user1, user2, s)
    ensures Base(cfg, user1, s, env) == Base(cfg, user2, s, env)
  {
    hide Visibility, DepValue, DefaultValue;
  }

  lemma SameStep(cfg: Config, user1: User, user2: User, s: Sym, env: Env)
    requires s in cfg.info && SameFor(user1, user2, s)
    requires cfg.info[s].role.Member? ==> SameFor(user1, user2, cfg.info[s].role.choice)
    ensures Step(cfg, user1, s, env) == Step(cfg, user2, s, env) && Base(cfg, user1, s, env) == Base(cfg, user2, s, env)
  {
    hide Visibility, TargetVisible, DefaultPick, MaxVisible, DepValue, DefaultValue;
  }

  // ---------- The specification is the one solution ----------

  /** `env` gives every symbol the value that the others imply for it. */
  ghost predicate Solves(cfg: Config, user: User, env: Env) {
    && (forall s {:trigger Step(cfg, user, s, env)} :: s in cfg.info ==> env.tri(s) == Step(cfg, user, s, env).curr)
    && (forall s: Sym :: s !in cfg.info ==> env.tri(s) == FixedValue(s))
    && (forall l: Sym, r: Sym :: env.cmp(l, r) == Compare(cfg, l, r, env.tri(l), env.tri(r)))
  }

  lemma SolvedBy(cfg: Config, user: User, env: Env, s: Sym)
    requires Solves(cfg, user, env) && s in cfg.info
    ensures env.tri(s) == Step(cfg, user, s, env).curr
  {
  }

  lemma SpecIsStep(cfg: Config, user: User, rank: Sym -> nat, s: Sym)
    requires WellFormed(cfg) && Ranked(cfg, rank) && s in cfg.info
    ensures SpecCalc(cfg, user, rank, s) == Step(cfg, user, s, SpecEnv(cfg, user, rank))
  {
    var below, all := EnvBelow(cfg, user, rank, rank(s)), SpecEnv(cfg, user, rank);
    assert forall t :: t in Reads(cfg, s) ==> below.tri(t) == all.tri(t);
    StepReads(cfg, user, s, below, all);
  }

  lemma SpecSolves(cfg: Config, user: User, rank: Sym -> nat)
    requires WellFormed(cfg) && Ranked(cfg, rank)
    ensures Solves(cfg, user, SpecEnv(cfg, user, rank))
  {
    forall s | s in cfg.info
      ensures SpecEnv(cfg, user, rank).tri(s) == Step(cfg, user, s, SpecEnv(cfg, user, rank)).curr
    {
      SpecIsStep(cfg, user, rank, s);
    }
  }

  /** Two solutions give every symbol the same value. */
  lemma {:induction false} SolutionsAgree(cfg: Config, user: User, rank: Sym -> nat, env1: Env, env2: Env, s: Sym)
    requires WellFormed(cfg) && Ranked(cfg, rank) && Solves(cfg, user, env1) && Solves(cfg, user, env2)
    ensures env1.tri(s) == env2.tri(s)
    decreases if s in cfg.info then rank(s) + 1 else 0
  {
    if s in cfg.info {
      forall t | t in Reads(cfg, s)
        ensures env1.tri(t) == env2.tri(t)
      {
        SolutionsAgree(cfg, user, rank, env1, env2, t);
      }
      StepReads(cfg, user, s, env1, env2);
    }
  }

  // ---------- What every solution satisfies ----------

  /** The simplifier's side conditions hold of the calculated values: a bool is
      never m, and comparisons with y, m and n tell the value. */
  lemma SolutionIsAdmissible(cfg: Config, user: User, env: Env)
    requires WellFormed(cfg) && Solves(cfg, user, env)
    ensures Admissible(env)
  {
    assert forall c: Sym :: IsTriConst(c) ==> c !in cfg.info && env.tri(c) == c.id;
    forall s: Sym | s.kind.Boolean?
      ensures env.tri(s) != MOD
    {
      if s in cfg.info { NoModWithoutModules(cfg, user, env, s); }
    }
    forall s: Sym, c: Sym | (IsTriKind(s) || IsTriConst(s)) && IsTriConst(c)
      ensures env.cmp(s, c) == 0 <==> env.tri(s) == env.tri(c)
    {
      assert NumberOf(cfg, c, env.tri(c)) == None;
      StrCmpZero(TextOf(cfg, s, env.tri(s)), TextOf(cfg, c, env.tri(c)));
    }
  }

  /** The constant `c` equals a tristate symbol with the value `t`. */
  predicate Matches(cfg: Config, c: Sym, t: Tristate) {
    if cfg.number(c).Some? then cfg.number(c).value == t else cfg.text(c) == TriText(t)
  }

  lemma MatchesIsEqual(cfg: Config, user: User, env: Env, s: Sym, c: Sym)
    requires Solves(cfg, user, env) && s.kind.TristateKind? && IsConst(c)
    ensures env.cmp(s, c) == 0 <==> Matches(cfg, c, env.tri(s))
  {
    StrCmpZero(TriText(env.tri(s)), cfg.text(c));
  }

  /** No value equals two of the constants that a symbol is compared with. */
  ghost predicate ConstantsDiffer(cfg: Config, pairs: set<(Sym, Sym)>) {
    forall p, c: Sym, t: Tristate :: p in pairs && IsConst(c) && c != p.1 && (IsTriConst(c) || (p.0, c) in pairs) ==>
      !(Matches(cfg, p.1, t) && Matches(cfg, c, t))
  }

  /** Calculated values keep apart whatever constants differ in this way. */
  lemma SolutionIsApart(cfg: Config, user: User, env: Env, pairs: set<(Sym, Sym)>)
    requires Solves(cfg, user, env) && ConstantsDiffer(cfg, pairs)
    requires forall p :: p in pairs ==> p.0.kind.TristateKind? && IsConst(p.1)
    ensures Apart(env, pairs)
  {
    forall p, c: Sym | p in pairs && IsConst(c) && c != p.1 && (IsTriConst(c) || (p.0, c) in pairs)
      ensures !(env.cmp(p.0, p.1) == 0 && env.cmp(p.0, c) == 0)
    {
      MatchesIsEqual(cfg, user, env, p.0, p.1);
      MatchesIsEqual(cfg, user, env, p.0, c);
    }
  }

  lemma {:induction false} BoundedReads(e: Expr, c: Sym, full: bool, env: Env)
    requires BoundedBy(e, c, full) && env.tri(SYM_NO) == NO && Eval(e, env) != NO
    ensures c in SymsOf(e)
  {
    if e.Bin? {
      if BoundedBy(e.fst, c, full) { BoundedReads(e.fst, c, full, env); } else { BoundedReads(e.snd, c, full, env); }
    }
  }

  lemma {:induction false} BoundedValue(e: Expr, c: Sym, full: bool, env: Env)
    requires BoundedBy(e, c, full) && Admissible(env) && IsTriKind(c)
    ensures Eval(e, env) <= env.tri(c) && (full && Eval(e, env) != NO ==> env.tri(c) == YES)
  {
    if e.Bin? {
      if BoundedBy(e.fst, c, full) { BoundedValue(e.fst, c, full, env); }
      if BoundedBy(e.snd, c, full) { BoundedValue(e.snd, c, full, env); }
    }
  }

  /** Without modules no configured symbol is m. */
  lemma NoModWithoutModules(cfg: Config, user: User, env: Env, s: Sym)
    requires WellFormed(cfg) && Solves(cfg, user, env) && s in cfg.info
    requires cfg.modules == NO || s.kind.Boolean?
    ensures env.tri(s) != MOD
    ensures Step(cfg, user, s, env).visible != MOD && Step(cfg, user, s, env).rev != MOD
  {
    hide MaxVisible, DepValue, DefaultValue, Pick;
    SolvedBy(cfg, user, env, s);
  }

  /** The choice could be y but for a member to pick. */
  ghost predicate NothingToPick(cfg: Config, user: User, c: Sym, env: Env) {
    IsChoice(cfg, c) && Base(cfg, user, c, env).curr == YES && Pick(cfg, user, c, env).None?
  }

  /** Selects are a lower bound, whatever the user chose, exactly but for choices
      without a member to pick. */
  lemma SelectBound(cfg: Config, user: User, env: Env, s: Sym)
    requires Solves(cfg, user, env) && s in cfg.info
    ensures
      var rev := Step(cfg, user, s, env).rev;
      rev <= env.tri(s) <==> rev == NO || !NothingToPick(cfg, user, s, env)
  {
    hide Visibility, DepValue, DefaultValue, PickWhenYes;
    SolvedBy(cfg, user, env, s);
  }

  // ---------- Properties and defaults one at a time ----------

  lemma MaxVisibleNone(hidden: bool, env: Env)
    ensures MaxVisible([], hidden, env) == NO
  {
  }

  lemma PromptAt(p: seq<Option<Expr>>, i: nat, hidden: bool, env: Env)
    requires i < |p|
    ensures MaxVisible(p[i..], hidden, env) == TriOr(PromptValue(p[i], hidden, env), MaxVisible(p[i + 1..], hidden, env))
    ensures SymsOfPrompts(p[i..]) == SymsOfOpt(p[i]) + SymsOfPrompts(p[i + 1..])
  {
    assert p[i..][1..] == p[i + 1..];
  }

  lemma DefaultValueNone(env: Env)
    ensures DefaultValue([], env) == NO
  {
  }

  lemma DefaultAt(d: seq<Default>, i: nat, env: Env)
    requires i < |d|
    ensures DefaultValue(d[i..], env) ==
      if EvalOpt(d[i].cond, env) != NO then TriAnd(Eval(d[i].value, env), EvalOpt(d[i].cond, env))
      else DefaultValue(d[i + 1..], env)
    ensures SymsOfDefaults(d[i..]) == SymsOfOpt(d[i].cond) + SymsOf(d[i].value) + SymsOfDefaults(d[i + 1..])
  {
    assert d[i..][1..] == d[i + 1..];
  }

  // ---------- Configurations for examples ----------

  /** With modules, and with no symbols that spell numbers. */
  function Simple(info: map<Sym, SymInfo>, seen: Sym -> Tristate): Config {
    Config(info, (s: Sym) => if IsTriConst(s) then TriText(s.id) else "x", (s: Sym) => None, YES, seen)
  }

  function Unseen(s: Sym): Tristate {
    NO
  }

  /** Without choices nothing but the kinds of symbols matters. */
  lemma PlainIsWellFormed(info: map<Sym, SymInfo>, seen: Sym -> Tristate)
    requires forall s :: s in info ==> IsTriKind(s) && info[s].role.Plain?
    ensures WellFormed(Simple(info, seen))
  {
  }

  /** With one choice of one member. */
  lemma OneChoiceIsWellFormed(info: map<Sym, SymInfo>, seen: Sym -> Tristate, c: Sym, m: Sym)
    requires c in info && m in info && c != m && info[c].role.Choice? && info[c].role.members == [m] && info[m].role == Member(c)
    requires forall s :: s in info ==> IsTriKind(s) && (s != c && s != m ==> info[s].role.Plain?)
    requires forall p :: p in info[m].prompts ==> MemberPrompt(p, m, c)
    ensures WellFormed(Simple(info, seen))
  {
    hide MemberPrompt;
  }

  /** The visibility by a single prompt. */
  lemma OnePrompt(cfg: Config, s: Sym, env: Env)
    requires s in cfg.info && |cfg.info[s].prompts| == 1
    ensures Visibility(cfg, s, env) == PromoteIf(ActsAsBool(cfg, s), PromptValue(cfg.info[s].prompts[0], HidesMod(cfg, s, env), env))
  {
    var p, hidden := cfg.info[s].prompts, HidesMod(cfg, s, env);
    assert p[1..] == [];
    assert MaxVisible(p[1..], hidden, env) == NO;
  }
}
