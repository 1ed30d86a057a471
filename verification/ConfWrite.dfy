/** Writing the configuration: a walk over the linked menu tree that needs no
    stack, and one line for every symbol that asks for one. */
module ConfWrite {
  import opened Options
  import opened Tristates
  import opened Exprs
  import opened Calculation
  import opened SymTables
  import opened Menus

  /** The way up from the current row: the entries it hangs below, each with its
      later siblings. */
  datatype Trail = Top | Up(m: Menu, rest: Forest, above: Trail)

  ghost function TrailNodes(t: Trail): set<Menu> {
    match t
    case Top => {}
    case Up(m, r, a) => {m} + Nodes(r) + TrailNodes(a)
  }

  /** The rows on the trail are linked, and it leads up to `root`. */
  ghost predicate OnTrail(t: Trail, parent: Menu?, root: Menu)
    reads TrailNodes(t)`next, TrailNodes(t)`list, TrailNodes(t)`parent
    reads root`next, root`parent
  {
    match t
    case Top => parent == root && root.next == null && root.parent == null
    case Up(m, r, a) => parent == m && Chain(r, m.next, m.parent, null) && OnTrail(a, m.parent, root)
  }

  /** The entries still to come above the current row. */
  ghost function Remaining(t: Trail): seq<Menu> {
    match t
    case Top => []
    case Up(_, r, a) => Preorder(r) + Remaining(a)
  }

  ghost function TrailLength(t: Trail): nat {
    match t
    case Top => 0
    case Up(_, _, a) => 1 + TrailLength(a)
  }

  lemma {:induction false} TrailAllocated(t: Trail)
    ensures forall m :: m in TrailNodes(t) ==> allocated(m)
  {
    if t.Up? {
      NodesAllocated(t.rest);
      TrailAllocated(t.above);
    }
  }

  /** Steps to the entry that follows `menu`, whose row is `f`: its first child,
      else its next sibling, else the next sibling of the nearest ancestor that
      has one. */
  method NextEntry(menu: Menu, root: Menu, ghost f: Forest, ghost t: Trail, ghost par: Menu?)
    returns (next: Menu?, ghost f': Forest, ghost t': Trail, ghost par': Menu?)
    requires f.Cons? && Chain(f, menu, par, null) && OnTrail(t, par, root)
    ensures Preorder(f) + Remaining(t) == [menu] + (Preorder(f') + Remaining(t'))
    ensures next == null ==> Preorder(f') + Remaining(t') == []
    ensures next != null ==> f'.Cons? && Chain(f', next, par', null) && OnTrail(t', par', root)
  {
    if menu.list != null {
      next, f', t', par' := menu.list, f.kids, Up(menu, f.rest, t), menu;
      DownOrder(f, t);
      return;
    }
    if menu.next != null {
      next, f', t', par' := menu.next, f.rest, t, par;
      return;
    }
    next, f', t', par' := menu.parent, Nil, t, par;
    while next != null && next.next == null
      invariant next != null ==> OnTrail(t', next, root)
      invariant next == null ==> t' == Top
      invariant Remaining(t') == Remaining(t)
      decreases if next == null then 0 else 1 + TrailLength(t')
    {
      t' := if t'.Top? then Top else t'.above;
      next := next.parent;
    }
    if next != null {
      assert t'.Up?;
      next := next.next;
      f', par', t' := t'.rest, t'.m.parent, t'.above;
    }
  }

  lemma DownOrder(f: Forest, t: Trail)
    requires f.Cons?
    ensures Preorder(f) + Remaining(t) == [f.m] + Preorder(f.kids) + Remaining(Up(f.m, f.rest, t))
  {
  }

  // ---------- Lines ----------

  datatype Line = Line(sym: Sym, value: Tristate)

  /** The symbol of an entry, unless it is a choice or has no configured symbol. */
  function EntrySym(cfg: Config, m: Menu): Option<Sym> {
    if m.sym.Some? && m.sym.value in cfg.info && !IsChoice(cfg, m.sym.value) then m.sym else None
  }

  /** The lines for a row of entries in order: at the first entry of every symbol
      that asks for a line, unless it is in `done`. */
  ghost function LinesOf(cfg: Config, user: User, env: Env, row: seq<Menu>, done: set<Sym>): seq<Line> {
    if row == [] then []
    else
      var e := EntrySym(cfg, row[0]);
      if e.Some? && e.value !in done && Written(cfg, user, e.value, env) then
        [Line(e.value, env.tri(e.value))] + LinesOf(cfg, user, env, row[1..], done + {e.value})
      else
        LinesOf(cfg, user, env, row[1..], done)
  }

  /** What one entry contributes. */
  ghost predicate Contributes(cfg: Config, user: User, env: Env, m: Menu, done: set<Sym>, out: Option<Line>, done': set<Sym>) {
    var e := EntrySym(cfg, m);
    if e.Some? && e.value !in done && Written(cfg, user, e.value, env)
    then out == Some(Line(e.value, env.tri(e.value))) && done' == done + {e.value}
    else out == None && done' == done
  }

  function OptLine(out: Option<Line>): seq<Line> {
    if out.Some? then [out.value] else []
  }

  lemma NoLines(cfg: Config, user: User, env: Env, done: set<Sym>)
    ensures LinesOf(cfg, user, env, [], done) == []
  {
  }

  lemma LinesStep(cfg: Config, user: User, env: Env, m: Menu, rest: seq<Menu>, lines: seq<Line>,
                  done: set<Sym>, out: Option<Line>, done': set<Sym>)
    requires Contributes(cfg, user, env, m, done, out, done')
    ensures lines + LinesOf(cfg, user, env, [m] + rest, done)
         == (lines + OptLine(out)) + LinesOf(cfg, user, env, rest, done')
  {
    assert ([m] + rest)[1..] == rest;
  }

  ghost function SymsOfLines(ls: seq<Line>): set<Sym> {
    set l | l in ls :: l.sym
  }

  ghost function SymsOfEntries(cfg: Config, row: seq<Menu>): set<Sym> {
    if row == [] then {}
    else (if EntrySym(cfg, row[0]).Some? then {EntrySym(cfg, row[0]).value} else {}) + SymsOfEntries(cfg, row[1..])
  }

  /** The symbols of the row that get a line, given those that have one. */
  ghost function Wanted(cfg: Config, user: User, env: Env, row: seq<Menu>, done: set<Sym>): set<Sym> {
    set s | s in SymsOfEntries(cfg, row) && s !in done && s in cfg.info && Written(cfg, user, s, env)
  }

  /** No symbol gets two lines, and a symbol gets one exactly if it has an entry
      and asks for a line; the line tells its value. */
  lemma {:induction false} OneLinePerSymbol(cfg: Config, user: User, env: Env, row: seq<Menu>, done: set<Sym>)
    ensures
      var ls := LinesOf(cfg, user, env, row, done);
      && (forall i, j :: 0 <= i < j < |ls| ==> ls[i].sym != ls[j].sym)
      && SymsOfLines(ls) == Wanted(cfg, user, env, row, done)
      && (forall i :: 0 <= i < |ls| ==> ls[i].value == env.tri(ls[i].sym))
  {
    if row != [] {
      hide Written;
      var e := EntrySym(cfg, row[0]);
      if e.Some? && e.value !in done && Written(cfg, user, e.value, env) {
        var first, rest := Line(e.value, env.tri(e.value)), LinesOf(cfg, user, env, row[1..], done + {e.value});
        OneLinePerSymbol(cfg, user, env, row[1..], done + {e.value});
        SymsOfCons(first, rest);
        assert Wanted(cfg, user, env, row, done) == {e.value} + Wanted(cfg, user, env, row[1..], done + {e.value});
      } else {
        OneLinePerSymbol(cfg, user, env, row[1..], done);
        assert Wanted(cfg, user, env, row, done) == Wanted(cfg, user, env, row[1..], done);
      }
    }
  }

  lemma SymsOfCons(first: Line, rest: seq<Line>)
    ensures SymsOfLines([first] + rest) == {first.sym} + SymsOfLines(rest)
    ensures forall i :: 0 <= i < |rest| ==> rest[i].sym in SymsOfLines(rest)
  {
    assert forall l :: l in [first] + rest <==> l == first || l in rest;
  }

  /** The symbols in `done` have their lines; a valid symbol is marked exactly if
      it asks for a line that it does not have. */
  ghost predicate MarksRight(cfg: Config, run: Run, done: set<Sym>, m: Memo)
    requires Ranked(cfg, run.rank)
  {
    && done <= m.valid <= cfg.info.Keys
    && forall s :: s in m.valid ==>
         (s in m.written <==> Written(cfg, run.user, s, Final(cfg, run)) && s !in done)
  }

  lemma MarksStayRight(cfg: Config, run: Run, done: set<Sym>, m0: Memo, m1: Memo)
    requires Ranked(cfg, run.rank)
    requires MarksRight(cfg, run, done, m0) && Grown(cfg, run, {}, {}, m0, m1)
    ensures MarksRight(cfg, run, done, m1)
  {
    hide Written, Final;
  }

  /** Clearing the mark of a symbol that got its line. */
  lemma MarkCleared(cfg: Config, run: Run, done: set<Sym>, m: Memo, s: Sym)
    requires Ranked(cfg, run.rank) && Coherent(cfg, run, {}, m)
    requires MarksRight(cfg, run, done, m) && s in m.valid
    ensures s in cfg.info && s in m.fields && m.fields[s].curr == Final(cfg, run).tri(s)
    ensures s in m.written <==> Written(cfg, run.user, s, Final(cfg, run)) && s !in done
    ensures s in m.written ==> MarksRight(cfg, run, done + {s}, m.(written := m.written - {s}))
    ensures Coherent(cfg, run, {}, m.(written := m.written - {s}))
  {
    hide Written, Spec, Final, Ranked, WellFormed, Coherent;
    CoherentShape(cfg, run, {}, m);
    ValidIsSpec(cfg, run, {}, s, m);
    FinalSolves(cfg, run, s);
    Unmarked(cfg, run, m, s);
  }

  /** What is remembered does not depend on the marks. */
  lemma Unmarked(cfg: Config, run: Run, m: Memo, s: Sym)
    requires Coherent(cfg, run, {}, m)
    ensures Coherent(cfg, run, {}, m.(written := m.written - {s}))
  {
    hide Spec, WellFormed, Linked, Ranked;
    LinkedAnyway(cfg, run, m, m.(written := m.written - {s}));
  }

  /** Calculates the symbol of an entry; writes its line and clears its mark if
      it is marked. */
  method VisitEntry(menu: Menu, t: SymTable, ghost done: set<Sym>, ghost run: Run)
    returns (out: Option<Line>, ghost done': set<Sym>)
    requires Shape(t.cfg, t.State())
    requires run.acyclic ==> Ranked(t.cfg, run.rank) && t.Ok(run, {}) && MarksRight(t.cfg, run, done, t.State())
    modifies t
    ensures Shape(t.cfg, t.State())
    ensures run.acyclic ==>
      && t.Ok(run, {}) && MarksRight(t.cfg, run, done', t.State())
      && Contributes(t.cfg, run.user, Final(t.cfg, run), menu, done, out, done')
  {
    hide Coherent, Final, Written, MarksRight, Grown, Spec, Ranked;
    out, done' := None, done;
    var e := EntrySym(t.cfg, menu);
    if e.Some? {
      ghost var m0 := t.State();
      t.CalcValue(e.value, run, {});
      if run.acyclic {
        MarksStayRight(t.cfg, run, done, m0, t.State());
        MarkCleared(t.cfg, run, done, t.State(), e.value);
      }
      ghost var m1 := t.State();
      if e.value in t.written {
        t.written := t.written - {e.value};
        assert t.State() == m1.(written := m1.written - {e.value});
        out, done' := Some(Line(e.value, t.fields[e.value].curr)), done + {e.value};
      }
    }
  }

  /** Where the walk is: at `menu`, in a linked row, on a trail up to `root`. */
  ghost predicate At(f: Forest, menu: Menu?, par: Menu?, t: Trail, root: Menu)
    reads Nodes(f)`next, Nodes(f)`list, Nodes(f)`parent
    reads TrailNodes(t)`next, TrailNodes(t)`list, TrailNodes(t)`parent
    reads root`next, root`parent
  {
    menu != null ==> f.Cons? && Chain(f, menu, par, null) && OnTrail(t, par, root)
  }

  /** Deals with one entry and steps to the next one. */
  method WalkStep(menu: Menu, root: Menu, t: SymTable, ghost f: Forest, ghost trail: Trail, ghost par: Menu?,
                  ghost done: set<Sym>, ghost run: Run)
    returns (next: Menu?, out: Option<Line>, ghost f': Forest, ghost trail': Trail, ghost par': Menu?, ghost done': set<Sym>)
    requires At(f, menu, par, trail, root)
    requires Shape(t.cfg, t.State())
    requires run.acyclic ==> Ranked(t.cfg, run.rank) && t.Ok(run, {}) && MarksRight(t.cfg, run, done, t.State())
    modifies t
    ensures Preorder(f) + Remaining(trail) == [menu] + (Preorder(f') + Remaining(trail'))
    ensures At(f', next, par', trail', root)
    ensures next == null ==> Preorder(f') + Remaining(trail') == []
    ensures Shape(t.cfg, t.State())
    ensures run.acyclic ==>
      && t.Ok(run, {}) && MarksRight(t.cfg, run, done', t.State())
      && Contributes(t.cfg, run.user, Final(t.cfg, run), menu, done, out, done')
  {
    hide Coherent, Final, Written, Preorder, Remaining, MarksRight, Contributes;
    NodesAllocated(f);
    TrailAllocated(trail);
    out, done' := VisitEntry(menu, t, done, run);
    next, f', trail', par' := NextEntry(menu, root, f, trail, par);
  }

  /** Writes the lines of the tree below `root`, in the order of its entries. */
  method WriteConfig(root: Menu, t: SymTable, ghost f: Forest, ghost run: Run)
    returns (lines: seq<Line>, ghost visited: seq<Menu>)
    requires root.next == null && root.parent == null && Chain(f, root.list, root, null)
    requires Shape(t.cfg, t.State())
    requires run.acyclic ==> Ranked(t.cfg, run.rank) && t.Ok(run, {}) && MarksRight(t.cfg, run, {}, t.State())
    modifies t
    ensures visited == Preorder(f)
    ensures run.acyclic ==> lines == LinesOf(t.cfg, run.user, Final(t.cfg, run), Preorder(f), {})
  {
    assert root.list == null ==> f == Nil && Preorder(f) == [];
    assert root.list != null ==> f.Cons?;
    assert OnTrail(Top, root, root) && Remaining(Top) == [];
    hide *;
    lines, visited := [], [];
    ghost var g, trail, par := f, Top, root;
    ghost var done: set<Sym> := {};
    ghost var env := if run.acyclic then Final(t.cfg, run) else Env(x => NO, (x, y) => 0);
    ghost var todo := Preorder(f);
    var menu := root.list;
    assert LinesOf(t.cfg, run.user, env, [], done) == [] by { NoLines(t.cfg, run.user, env, done); }
    while menu != null
      invariant Shape(t.cfg, t.State()) && At(g, menu, par, trail, root)
      invariant menu == null ==> todo == []
      invariant todo == Preorder(g) + Remaining(trail) && visited + todo == Preorder(f)
      invariant run.acyclic ==> t.Ok(run, {}) && MarksRight(t.cfg, run, done, t.State())
      invariant run.acyclic ==> LinesOf(t.cfg, run.user, env, Preorder(f), {}) == lines + LinesOf(t.cfg, run.user, env, todo, done)
      invariant run.acyclic ==> LinesOf(t.cfg, run.user, env, [], done) == []
      decreases |todo|
    {
      ghost var done0, lines0, entry := done, lines, menu;
      var out;
      menu, out, g, trail, par, done := WalkStep(menu, root, t, g, trail, par, done, run);
      lines := lines + OptLine(out);
      ghost var rest := Preorder(g) + Remaining(trail);
      if run.acyclic {
        NoLines(t.cfg, run.user, env, done);
        LinesStep(t.cfg, run.user, env, entry, rest, lines0, done0, out, done);
      }
      ConcatAssoc(visited, [entry], rest);
      visited := visited + [entry];
      todo := rest;
    }
  }
}
