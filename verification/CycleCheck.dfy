/** The depth-first search for recursive dependencies. */
module CycleCheck {
  import opened Options
  import opened Exprs
  import opened Calculation

  datatype PropKind = Prompt | DefaultProp | Select | ChoiceProp | OtherProp

  datatype Prop = Prop(kind: PropKind, cond: Option<Expr>, value: Option<Expr>)

  /** What the search sees of a symbol. */
  datatype Node = Node(revDep: Option<Expr>, props: seq<Prop>)

  datatype Graph = Graph(nodes: map<Sym, Node>)

  function NodeOf(g: Graph, s: Sym): Node {
    if s in g.nodes then g.nodes[s] else Node(None, [])
  }

  /** Symbols in the conditions of properties other than select and choice, and
      in the values of defaults. */
  function PropSyms(p: Prop): set<Sym> {
    if p.kind.ChoiceProp? || p.kind.Select? then {}
    else SymsOfOpt(p.cond) + (if p.kind.DefaultProp? then SymsOfOpt(p.value) else {})
  }

  function PropsSyms(props: seq<Prop>): set<Sym> {
    if props == [] then {} else PropSyms(props[0]) + PropsSyms(props[1..])
  }

  function Edges(g: Graph, s: Sym): set<Sym> {
    SymsOfOpt(NodeOf(g, s).revDep) + PropsSyms(NodeOf(g, s).props)
  }

  /** Symbols following each other along edges. */
  ghost predicate IsPath(g: Graph, p: seq<Sym>) {
    forall i :: 0 <= i < |p| - 1 ==> p[i + 1] in Edges(g, p[i])
  }

  ghost predicate IsCycle(g: Graph, c: seq<Sym>) {
    c != [] && IsPath(g, c) && c[0] in Edges(g, c[|c| - 1])
  }

  /** All edges of the symbols in `rank` stay in `rank` and go down. */
  ghost predicate Descending(g: Graph, rank: map<Sym, nat>) {
    forall s, t :: s in rank && t in Edges(g, s) ==> t in rank && rank[t] < rank[s]
  }

  lemma {:induction false} DescendingPath(g: Graph, rank: map<Sym, nat>, p: seq<Sym>, i: nat)
    requires Descending(g, rank) && IsPath(g, p) && i < |p| && p[0] in rank
    ensures p[i] in rank && rank[p[i]] + i <= rank[p[0]]
  {
    if i > 0 { DescendingPath(g, rank, p, i - 1); }
  }

  /** A cycle has no place in a descending order. */
  lemma NoCycleWithin(g: Graph, rank: map<Sym, nat>, c: seq<Sym>)
    requires Descending(g, rank) && IsCycle(g, c)
    ensures c[0] !in rank
  {
    if c[0] in rank {
      DescendingPath(g, rank, c, |c| - 1);
    }
  }

  /** The state of the search; `rank` records in which order symbols were left
      while nothing was reported. */
  datatype Search = Search(
    check: set<Sym>,
    checked: set<Sym>,
    stack: seq<Sym>,
    reports: seq<seq<Sym>>,
    rank: map<Sym, nat>,
    clock: nat)

  /** Every report is a real cycle, and without reports the symbols left so far
      are in descending order. */
  ghost predicate Valid(g: Graph, m: Search) {
    && m.check <= m.checked
    && (forall i :: 0 <= i < |m.reports| ==> IsCycle(g, m.reports[i]) && m.reports[i][0] in m.checked)
    && (m.reports == [] ==>
          && m.rank.Keys == m.checked - m.check
          && Descending(g, m.rank)
          && forall s :: s in m.rank ==> m.rank[s] < m.clock)
  }

  /** The marked symbols lie on the path that the stack records. */
  ghost predicate OnStack(g: Graph, m: Search) {
    m.check == (set s | s in m.stack) && IsPath(g, m.stack)
  }

  /** What a part of the search leaves behind: marks and stack as they were;
      `r` is set only together with a report, and names a symbol that is still
      marked; and as long as nothing is reported, `done` have been left. */
  ghost predicate Left(g: Graph, m0: Search, m1: Search, r: Option<Sym>, done: set<Sym>) {
    && Valid(g, m1)
    && m1.check == m0.check && m1.stack == m0.stack && m0.checked <= m1.checked
    && m0.reports <= m1.reports
    && (r.Some? ==> r.value in m1.check && |m1.reports| > |m0.reports|)
    && (m1.reports == [] ==> done <= m1.checked - m1.check)
  }

  lemma LeftTwice(g: Graph, m0: Search, m1: Search, m2: Search, r: Option<Sym>, d1: set<Sym>, d2: set<Sym>)
    requires Left(g, m0, m1, None, d1) && Left(g, m1, m2, r, d2)
    ensures Left(g, m0, m2, r, d1 + d2)
  {
  }

  lemma LeftWithReport(g: Graph, m0: Search, m1: Search, r: Option<Sym>, d1: set<Sym>, d2: set<Sym>)
    requires Left(g, m0, m1, r, d1) && r.Some?
    ensures Left(g, m0, m1, r, d2)
  {
  }

  lemma LeftNothing(g: Graph, m: Search)
    requires Valid(g, m)
    ensures Left(g, m, m, None, {})
  {
  }

  /** The part of the stack from the marked symbol on closes to a cycle. */
  lemma SuffixIsCycle(g: Graph, p: seq<Sym>, i: nat)
    requires IsPath(g, p) && i < |p| && p[i] in Edges(g, p[|p| - 1])
    ensures IsCycle(g, p[i..])
  {
  }

  lemma LeftStack(g: Graph, m0: Search, m1: Search, r: Option<Sym>, done: set<Sym>)
    requires Left(g, m0, m1, r, done)
    ensures m1.stack == m0.stack && Valid(g, m1) && m0.checked <= m1.checked
    ensures OnStack(g, m0) ==> OnStack(g, m1)
  {
  }

  lemma NoProps()
    ensures PropsSyms([]) == {}
  {
  }

  lemma PropsAt(props: seq<Prop>, i: nat)
    requires i < |props|
    ensures PropsSyms(props[i..]) == PropSyms(props[i]) + PropsSyms(props[i + 1..])
  {
    assert props[i..][1..] == props[i + 1..];
  }

  /** A symbol is entered: it becomes marked and is pushed. */
  lemma Entered(g: Graph, m: Search, s: Sym)
    requires Valid(g, m) && OnStack(g, m) && s !in m.checked
    requires m.stack != [] ==> s in Edges(g, m.stack[|m.stack| - 1])
    ensures
      var m1 := m.(check := m.check + {s}, checked := m.checked + {s}, stack := m.stack + [s]);
      Valid(g, m1) && OnStack(g, m1)
  {
  }

  /** A symbol is left after all its edges were followed. */
  lemma Leave(g: Graph, m0: Search, s: Sym, m: Search, r: Option<Sym>)
    requires Valid(g, m0) && OnStack(g, m0) && s !in m0.checked
    requires
      var m1 := m0.(check := m0.check + {s}, checked := m0.checked + {s}, stack := m0.stack + [s]);
      Left(g, m1, m, r, Edges(g, s))
    ensures
      var m2 := m.(check := m.check - {s}, stack := m0.stack);
      var m3 := if m.reports == [] then m2.(rank := m.rank[s := m.clock], clock := m.clock + 1) else m2;
      Left(g, m0, m3, if r == Some(s) then None else r, {s})
  {
  }

  /** No symbol of `syms` reaches itself. */
  ghost predicate Acyclic(g: Graph, syms: set<Sym>) {
    forall c: seq<Sym> :: IsCycle(g, c) ==> c[0] !in syms
  }

  /** Between searches, there are no reports exactly if none of the symbols seen
      lies on a cycle. */
  lemma SilentIffAcyclic(g: Graph, m: Search)
    requires Valid(g, m) && m.check == {}
    ensures m.reports == [] <==> Acyclic(g, m.checked)
  {
    if m.reports == [] {
      forall c: seq<Sym> | IsCycle(g, c)
        ensures c[0] !in m.checked
      {
        NoCycleWithin(g, m.rank, c);
      }
    } else {
      assert IsCycle(g, m.reports[0]);
    }
  }

  lemma EmptyStack(g: Graph, m: Search)
    requires m.stack == [] && m.check == {}
    ensures OnStack(g, m)
  {
  }

  /** A check that starts with nothing marked returns nothing, report or not. */
  lemma LeftAtTop(g: Graph, m0: Search, m1: Search, r: Option<Sym>, s: Sym)
    requires Left(g, m0, m1, r, {s}) && m0.check == {} && m0.stack == []
    ensures r == None && m1.check == {} && m1.stack == [] && m0.checked <= m1.checked
    ensures Valid(g, m1) && (m1.reports == [] ==> m0.reports == [] && s in m1.checked)
  {
  }

  class Checker {
    const g: Graph
    /** Marks: on the way, and seen at all. */
    var check: set<Sym>
    var checked: set<Sym>
    var stack: seq<Sym>
    var reports: seq<seq<Sym>>
    ghost var rank: map<Sym, nat>
    ghost var clock: nat

    constructor (g: Graph)
      ensures this.g == g && State() == Search({}, {}, [], [], map[], 0)
      ensures Valid(g, State()) && OnStack(g, State())
    {
      this.g := g;
      check, checked, stack, reports := {}, {}, [], [];
      rank, clock := map[], 0;
    }

    ghost function State(): Search
      reads this
    {
      Search(check, checked, stack, reports, rank, clock)
    }

    /** Everything that can be reached is in the finite set `universe`. */
    ghost predicate Within(universe: set<Sym>)
      reads this
    {
      checked <= universe && forall t :: t in universe ==> Edges(g, t) <= universe
    }

    method CheckDeps(s: Sym, ghost universe: set<Sym>) returns (r: Option<Sym>)
      requires Valid(g, State()) && OnStack(g, State()) && Within(universe) && s in universe
      requires stack != [] ==> s in Edges(g, stack[|stack| - 1])
      modifies this
      ensures Left(g, old(State()), State(), r, {s}) && Within(universe)
      decreases universe - checked, 0, 1
    {
      ghost var m0 := State();
      hide OnStack, Edges, IsPath;
      if s in check {
        r := Reached(s);
        return;
      }
      if s in checked {
        return None;
      }
      Entered(g, m0, s);
      check, checked := check + {s}, checked + {s};
      r := CheckSymDeps(s, universe, m0);
      ghost var m := State();
      check := check - {s};
      if reports == [] {
        rank, clock := rank[s := clock], clock + 1;
      }
      Leave(g, m0, s, m.(stack := m.stack + [s]), r);
      if r == Some(s) {
        r := None;
      }
    }

    /** A symbol on the stack closes a cycle. */
    method Reached(s: Sym) returns (r: Option<Sym>)
      requires Valid(g, State()) && OnStack(g, State()) && s in check
      requires stack != [] ==> s in Edges(g, stack[|stack| - 1])
      modifies this`reports
      ensures r == Some(s) && Left(g, old(State()), State(), r, {s})
    {
      PrintRecursive(s);
      r := Some(s);
    }

    /** Reports the part of the stack from the symbol that was reached again. */
    method PrintRecursive(s: Sym)
      requires Valid(g, State()) && OnStack(g, State()) && s in check
      requires s in Edges(g, stack[|stack| - 1])
      modifies this`reports
      ensures exists i :: 0 <= i < |stack| && stack[i] == s && reports == old(reports) + [stack[i..]]
      ensures Valid(g, State())
    {
      var i := |stack| - 1;
      while stack[i] != s
        invariant 0 <= i < |stack| && s in stack[..i + 1]
        decreases i
      {
        assert stack[..i + 1] == stack[..i] + [stack[i]];
        i := i - 1;
      }
      SuffixIsCycle(g, stack, i);
      reports := reports + [stack[i..]];
      assert stack[i] == s && reports == old(reports) + [stack[i..]];
    }

    method CheckSymDeps(s: Sym, ghost universe: set<Sym>, ghost m0: Search) returns (r: Option<Sym>)
      requires State() == m0.(check := m0.check + {s}, checked := m0.checked + {s})
      requires Valid(g, m0.(check := m0.check + {s}, checked := m0.checked + {s}, stack := m0.stack + [s]))
      requires OnStack(g, m0.(check := m0.check + {s}, checked := m0.checked + {s}, stack := m0.stack + [s]))
      requires Within(universe) && s in universe
      modifies this
      ensures Left(g, m0.(check := m0.check + {s}, checked := m0.checked + {s}, stack := m0.stack + [s]),
                   State().(stack := stack + [s]), r, Edges(g, s))
      ensures stack == m0.stack && Within(universe)
      decreases universe - checked, 2, 0
    {
      hide Valid, Left, IsPath;
      stack := stack + [s];
      ghost var m1 := State();
      var node := NodeOf(g, s);
      r := CheckOpt(node.revDep, universe);
      if r.None? {
        ghost var m2 := State();
        r := CheckProps(node.props, universe);
        LeftTwice(g, m1, m2, State(), r, SymsOfOpt(node.revDep), PropsSyms(node.props));
      } else {
        LeftWithReport(g, m1, State(), r, SymsOfOpt(node.revDep), Edges(g, s));
      }
      LeftStack(g, m1, State(), r, Edges(g, s));
      stack := stack[..|stack| - 1];
      assert m0.stack + [s] == stack + [s];
    }

    method CheckProps(props: seq<Prop>, ghost universe: set<Sym>) returns (r: Option<Sym>)
      requires Valid(g, State()) && OnStack(g, State()) && Within(universe)
      requires stack != [] && stack[|stack| - 1] in universe && PropsSyms(props) <= Edges(g, stack[|stack| - 1])
      modifies this
      ensures Left(g, old(State()), State(), r, PropsSyms(props)) && Within(universe)
      decreases universe - checked, 1, 3
    {
      hide Valid, Left, OnStack, PropsSyms, PropSyms, Edges;
      ghost var m0 := State();
      ghost var done: set<Sym> := {};
      LeftNothing(g, m0);
      r := None;
      var i := 0;
      assert props[0..] == props;
      while i < |props|
        invariant 0 <= i <= |props| && Within(universe) && r == None
        invariant Left(g, m0, State(), None, done) && PropsSyms(props) == done + PropsSyms(props[i..])
        invariant Valid(g, State()) && OnStack(g, State()) && stack == m0.stack && old(checked) <= checked
      {
        PropsAt(props, i);
        ghost var m1 := State();
        r := CheckProp(props[i], universe);
        LeftStack(g, m1, State(), r, PropSyms(props[i]));
        if r.Some? {
          LeftTwice(g, m0, m1, State(), r, done, PropSyms(props[i]));
          LeftWithReport(g, m0, State(), r, done + PropSyms(props[i]), PropsSyms(props));
          return;
        }
        LeftTwice(g, m0, m1, State(), None, done, PropSyms(props[i]));
        done := done + PropSyms(props[i]);
        i := i + 1;
      }
      assert props[|props|..] == [];
      assert PropsSyms([]) == {} by { NoProps(); }
    }

    /** Conditions of all properties but selects and choices; values of defaults. */
    method CheckProp(p: Prop, ghost universe: set<Sym>) returns (r: Option<Sym>)
      requires Valid(g, State()) && OnStack(g, State()) && Within(universe)
      requires stack != [] && stack[|stack| - 1] in universe && PropSyms(p) <= Edges(g, stack[|stack| - 1])
      modifies this
      ensures Left(g, old(State()), State(), r, PropSyms(p)) && Within(universe)
      decreases universe - checked, 1, 2
    {
      hide Valid, OnStack, Left, Edges, SymsOfOpt;
      ghost var m0 := State();
      LeftNothing(g, m0);
      r := None;
      if p.kind.ChoiceProp? || p.kind.Select? {
        return;
      }
      r := CheckOpt(p.cond, universe);
      LeftStack(g, m0, State(), r, SymsOfOpt(p.cond));
      if r.Some? {
        LeftWithReport(g, m0, State(), r, SymsOfOpt(p.cond), PropSyms(p));
        return;
      }
      if p.kind.DefaultProp? {
        ghost var m1 := State();
        r := CheckOpt(p.value, universe);
        LeftTwice(g, m0, m1, State(), r, SymsOfOpt(p.cond), SymsOfOpt(p.value));
      } else {
        assert PropSyms(p) == SymsOfOpt(p.cond);
      }
    }

    method CheckOpt(e: Option<Expr>, ghost universe: set<Sym>) returns (r: Option<Sym>)
      requires Valid(g, State()) && OnStack(g, State()) && Within(universe)
      requires stack != [] && stack[|stack| - 1] in universe && SymsOfOpt(e) <= Edges(g, stack[|stack| - 1])
      modifies this
      ensures Left(g, old(State()), State(), r, SymsOfOpt(e)) && Within(universe)
      decreases universe - checked, 1, 1
    {
      r := None;
      LeftNothing(g, State());
      if e.Some? {
        r := CheckExpr(e.value, universe);
      }
    }

    method CheckExpr(e: Expr, ghost universe: set<Sym>) returns (r: Option<Sym>)
      requires Valid(g, State()) && OnStack(g, State()) && Within(universe)
      requires stack != [] && stack[|stack| - 1] in universe && SymsOf(e) <= Edges(g, stack[|stack| - 1])
      modifies this
      ensures Left(g, old(State()), State(), r, SymsOf(e)) && Within(universe)
      decreases universe - checked, 1, 0, Size(e)
    {
      hide Valid, Left, OnStack;
      match e
      case Symbol(s) => r := CheckDeps(s, universe);
      case Comp(_, a, b) => r := CheckPair(a, b, universe);
      case Not(a) => r := CheckExpr(a, universe);
      case Bin(_, a, b) => r := CheckBoth(a, b, universe);
    }

    /** The two sides of a comparison. */
    method CheckPair(a: Sym, b: Sym, ghost universe: set<Sym>) returns (r: Option<Sym>)
      requires Valid(g, State()) && OnStack(g, State()) && Within(universe)
      requires stack != [] && stack[|stack| - 1] in universe && {a, b} <= Edges(g, stack[|stack| - 1])
      modifies this
      ensures Left(g, old(State()), State(), r, {a, b}) && Within(universe)
      decreases universe - checked, 1, 0, 0
    {
      hide Valid, Left, OnStack, Edges;
      ghost var m0 := State();
      r := CheckDeps(a, universe);
      LeftStack(g, m0, State(), r, {a});
      if r.None? {
        ghost var m1 := State();
        r := CheckDeps(b, universe);
        LeftTwice(g, m0, m1, State(), r, {a}, {b});
        assert {a} + {b} == {a, b};
      } else {
        LeftWithReport(g, m0, State(), r, {a}, {a, b});
      }
    }

    /** The two operands of && or ||. */
    method CheckBoth(a: Expr, b: Expr, ghost universe: set<Sym>) returns (r: Option<Sym>)
      requires Valid(g, State()) && OnStack(g, State()) && Within(universe)
      requires stack != [] && stack[|stack| - 1] in universe && SymsOf(a) + SymsOf(b) <= Edges(g, stack[|stack| - 1])
      modifies this
      ensures Left(g, old(State()), State(), r, SymsOf(a) + SymsOf(b)) && Within(universe)
      decreases universe - checked, 1, 0, Size(a) + Size(b)
    {
      hide Valid, Left, OnStack, Edges, SymsOf;
      ghost var m0 := State();
      r := CheckExpr(a, universe);
      LeftStack(g, m0, State(), r, SymsOf(a));
      if r.None? {
        ghost var m1 := State();
        r := CheckExpr(b, universe);
        LeftTwice(g, m0, m1, State(), r, SymsOf(a), SymsOf(b));
      } else {
        LeftWithReport(g, m0, State(), r, SymsOf(a), SymsOf(a) + SymsOf(b));
      }
    }

    /** One pass over symbols, as after parsing: it stays silent exactly if no
        symbol it saw lies on a cycle. The single checks never return anything,
        so the pass counts no errors either way. */
    method CheckAll(syms: seq<Sym>, ghost universe: set<Sym>) returns (errors: int)
      requires Valid(g, State()) && Within(universe) && stack == [] && check == {}
      requires forall i :: 0 <= i < |syms| ==> syms[i] in universe
      modifies this
      ensures Valid(g, State()) && Within(universe) && stack == [] && check == {} && errors == 0
      ensures reports == [] <==> Acyclic(g, checked)
      ensures reports == [] ==> forall i :: 0 <= i < |syms| ==> syms[i] in checked
    {
      hide Valid, Left, IsPath, Edges, Acyclic;
      errors := 0;
      for i := 0 to |syms|
        invariant Valid(g, State()) && Within(universe)
        invariant stack == [] && check == {} && errors == 0
        invariant reports == [] ==> forall j :: 0 <= j < i ==> syms[j] in checked
      {
        ghost var m0 := State();
        EmptyStack(g, m0);
        var r := CheckDeps(syms[i], universe);
        ghost var m1 := State();
        LeftAtTop(g, m0, m1, r, syms[i]);
        assert m1.reports == [] ==> forall j :: 0 <= j < i ==> syms[j] in m0.checked;
        if r.Some? {
          errors := errors + 1;
        }
      }
      SilentIffAcyclic(g, State());
    }
  }

  // ---------- What a silent pass is worth ----------

  function PromptProps(prompts: seq<Option<Expr>>): seq<Prop> {
    if prompts == [] then [] else [Prop(Prompt, prompts[0], None)] + PromptProps(prompts[1..])
  }

  function DefaultProps(defaults: seq<Default>): seq<Prop> {
    if defaults == [] then [] else [Prop(DefaultProp, defaults[0].cond, Some(defaults[0].value))] + DefaultProps(defaults[1..])
  }

  /** What the search sees of a configuration without choices. */
  function GraphOf(cfg: Config): Graph {
    Graph(map s | s in cfg.info :: Node(cfg.info[s].revDep, PromptProps(cfg.info[s].prompts) + DefaultProps(cfg.info[s].defaults)))
  }

  lemma {:induction false} PropsSymsOf(p: seq<Prop>, q: seq<Prop>)
    ensures PropsSyms(p + q) == PropsSyms(p) + PropsSyms(q)
  {
    if p == [] {
      assert p + q == q;
    } else {
      PropsSymsOf(p[1..], q);
      assert (p + q)[1..] == p[1..] + q;
    }
  }

  lemma {:induction false} PromptPropsSyms(prompts: seq<Option<Expr>>)
    ensures PropsSyms(PromptProps(prompts)) == SymsOfPrompts(prompts)
  {
    if prompts != [] { PromptPropsSyms(prompts[1..]); }
  }

  lemma {:induction false} DefaultPropsSyms(defaults: seq<Default>)
    ensures PropsSyms(DefaultProps(defaults)) == SymsOfDefaults(defaults)
  {
    if defaults != [] {
      DefaultPropsSyms(defaults[1..]);
      assert PropSyms(DefaultProps(defaults)[0]) == SymsOfOpt(defaults[0].cond) + SymsOf(defaults[0].value);
    }
  }

  /** The evaluator reads what the search follows, the direct dependency, and what
      is implied. */
  lemma FollowedReads(cfg: Config, s: Sym)
    requires s in cfg.info && cfg.info[s].role.Plain?
    ensures Reads(cfg, s) == Edges(GraphOf(cfg), s) + SymsOfOpt(cfg.info[s].dirDep) + SymsOfOpt(cfg.info[s].implied)
  {
    var info := cfg.info[s];
    PropsSymsOf(PromptProps(info.prompts), DefaultProps(info.defaults));
    PromptPropsSyms(info.prompts);
    DefaultPropsSyms(info.defaults);
  }

  ghost function RankOf(rank: map<Sym, nat>): Sym -> nat {
    (s: Sym) => if s in rank then rank[s] else 0
  }

  /** A descending order of the search is a ranking for the evaluator exactly if
      direct dependencies and what is implied go down in it too; they do if the
      search follows them, for some property. */
  lemma SilentMeansRanked(cfg: Config, rank: map<Sym, nat>)
    requires Descending(GraphOf(cfg), rank) && forall s :: s in cfg.info ==> s in rank && cfg.info[s].role.Plain?
    ensures Ranked(cfg, RankOf(rank)) <==>
      forall s, t :: s in cfg.info && t in cfg.info && t in SymsOfOpt(cfg.info[s].dirDep) + SymsOfOpt(cfg.info[s].implied) ==>
        rank[t] < rank[s]
    ensures (forall s :: s in cfg.info ==>
      SymsOfOpt(cfg.info[s].dirDep) + SymsOfOpt(cfg.info[s].implied) <= Edges(GraphOf(cfg), s)) ==> Ranked(cfg, RankOf(rank))
  {
    hide Edges, Reads;
    forall s | s in cfg.info
      ensures Reads(cfg, s) == Edges(GraphOf(cfg), s) + (SymsOfOpt(cfg.info[s].dirDep) + SymsOfOpt(cfg.info[s].implied))
    {
      FollowedReads(cfg, s);
    }
  }

  const A := Sym(3, Boolean, false)
  const B := Sym(4, Boolean, false)

  /** A implies B, and A is visible only with B: the search is silent, yet the
      evaluator reads each for the other. */
  lemma ImpliedCycleIsSilent()
    ensures
      var infoA := SymInfo([Some(Symbol(B))], None, None, None, [], Plain);
      var infoB := SymInfo([None], None, None, Some(Symbol(A)), [], Plain);
      forall cfg: Config :: cfg.info == map[A := infoA, B := infoB] ==>
        Descending(GraphOf(cfg), map[A := 1, B := 0]) && forall rank: Sym -> nat :: !Ranked(cfg, rank)
  {
    var infoA := SymInfo([Some(Symbol(B))], None, None, None, [], Plain);
    var infoB := SymInfo([None], None, None, Some(Symbol(A)), [], Plain);
    forall cfg: Config | cfg.info == map[A := infoA, B := infoB]
      ensures Descending(GraphOf(cfg), map[A := 1, B := 0]) && forall rank: Sym -> nat :: !Ranked(cfg, rank)
    {
      assert infoA.prompts[1..] == [] && infoB.prompts[1..] == [];
      FollowedReads(cfg, A);
      FollowedReads(cfg, B);
      assert B in Reads(cfg, A) && A in Reads(cfg, B);
      assert PromptProps([]) == [] && DefaultProps([]) == [];
      assert PromptProps(infoA.prompts) == [Prop(Prompt, Some(Symbol(B)), None)];
      assert Edges(GraphOf(cfg), A) == {B} && Edges(GraphOf(cfg), B) == {};
    }
  }

  // ---------- Edges by the kind of property ----------

  /** `t` stands in a condition that counts, or in the value of a default. */
  predicate Mentions(p: Prop, t: Sym) {
    || (p.kind in {Prompt, OtherProp, DefaultProp} && t in SymsOfOpt(p.cond))
    || (p.kind == DefaultProp && t in SymsOfOpt(p.value))
  }

  lemma {:induction false} PropsByKind(props: seq<Prop>, t: Sym)
    ensures t in PropsSyms(props) <==> exists i :: 0 <= i < |props| && Mentions(props[i], t)
  {
    if props != [] {
      PropsByKind(props[1..], t);
      assert forall i :: 1 <= i < |props| ==> props[1..][i - 1] == props[i];
      PropsFirst(props);
      assert t in PropSyms(props[0]) <==> Mentions(props[0], t);
      hide PropsSyms, SymsOfOpt, Mentions, PropSyms;
    }
  }

  lemma PropsFirst(props: seq<Prop>)
    requires props != []
    ensures PropsSyms(props) == PropSyms(props[0]) + PropsSyms(props[1..])
  {
  }

  /** The edges that the search follows: what selects the symbol; what stands in the
      condition of a prompt, a default or any other property, such as a range or an
      imply, that is no select and no choice; and what stands in the value of a default. */
  lemma EdgesByKind(g: Graph, s: Sym, t: Sym)
    ensures t in Edges(g, s) <==>
      s in g.nodes &&
      (t in SymsOfOpt(g.nodes[s].revDep)
       || exists i :: 0 <= i < |g.nodes[s].props| && Mentions(g.nodes[s].props[i], t))
  {
    hide PropsSyms, SymsOfOpt, Mentions;
    if s in g.nodes { PropsByKind(g.nodes[s].props, t); } else { NoProps(); }
    assert SymsOfOpt(None) == {} by { NoSyms(); }
  }

  lemma NoSyms()
    ensures SymsOfOpt(None) == {}
  {
  }
}
