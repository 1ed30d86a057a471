/** The tree of menu entries: automatic submenus, flattening, propagation of
    dependencies, on entries linked by next, list and parent pointers. */
module Menus {
  import opened Options
  import opened Tristates
  import opened Exprs
  import opened Transforming
  import opened Dedup
  import opened Dups
  import opened Dependencies

  class Menu {
    const sym: Option<Sym>
    const isChoice: bool
    const hasPrompt: bool
    var next: Menu?
    var list: Menu?
    var parent: Menu?
    /** The dependency of the entry, and the condition of its prompt. */
    var dep: Option<Expr>
    var vis: Option<Expr>

    constructor (sym: Option<Sym>, isChoice: bool, hasPrompt: bool, dep: Option<Expr>, vis: Option<Expr>)
      ensures this.sym == sym && this.isChoice == isChoice && this.hasPrompt == hasPrompt
      ensures this.dep == dep && this.vis == vis
      ensures next == null && list == null && parent == null
    {
      this.sym, this.isChoice, this.hasPrompt := sym, isChoice, hasPrompt;
      this.dep, this.vis := dep, vis;
      next, list, parent := null, null, null;
    }
  }

  /** The shape of a row of entries: an entry, its children, its later siblings. */
  datatype Forest = Nil | Cons(m: Menu, kids: Forest, rest: Forest)

  ghost function Nodes(f: Forest): set<Menu> {
    match f
    case Nil => {}
    case Cons(m, k, r) => {m} + Nodes(k) + Nodes(r)
  }

  ghost function Count(f: Forest): nat {
    match f
    case Nil => 0
    case Cons(_, k, r) => 1 + Count(k) + Count(r)
  }

  /** The entries in the order in which they were defined. */
  ghost function Preorder(f: Forest): seq<Menu> {
    match f
    case Nil => []
    case Cons(m, k, r) => [m] + Preorder(k) + Preorder(r)
  }

  ghost function Append(f: Forest, g: Forest): Forest {
    match f
    case Nil => g
    case Cons(m, k, r) => Cons(m, k, Append(r, g))
  }

  /** No entry occurs twice. */
  ghost predicate Separated(f: Forest) {
    match f
    case Nil => true
    case Cons(m, k, r) =>
      && m !in Nodes(k) && m !in Nodes(r) && Nodes(k) !! Nodes(r)
      && Separated(k) && Separated(r)
  }

  /** The pointers starting at `first` spell out `f` below `parent`; the last
      sibling points to `tail`. */
  ghost predicate Chain(f: Forest, first: Menu?, parent: Menu?, tail: Menu?)
    reads Nodes(f)`next, Nodes(f)`list, Nodes(f)`parent
  {
    match f
    case Nil => first == tail
    case Cons(m, k, r) =>
      && first == m && m.parent == parent
      && Chain(k, m.list, m, null)
      && Chain(r, m.next, parent, tail)
  }

  /** An entry without a prompt that still has children. */
  ghost predicate HiddenSubmenu(m: Menu, kids: Forest) {
    kids != Nil && !m.hasPrompt
  }

  /** No hidden submenu anywhere. */
  ghost predicate AllFlat(f: Forest) {
    match f
    case Nil => true
    case Cons(m, k, r) => !HiddenSubmenu(m, k) && AllFlat(k) && AllFlat(r)
  }

  /** No hidden submenu below the entries of this row. */
  ghost predicate KidsFlat(f: Forest) {
    match f
    case Nil => true
    case Cons(_, k, r) => AllFlat(k) && KidsFlat(r)
  }

  /** `g` is what remains of the row `f` after some first entries. */
  ghost predicate IsSuffix(g: Forest, f: Forest) {
    g == f || (f.Cons? && IsSuffix(g, f.rest))
  }

  // ---------- Rows ----------

  lemma {:induction false} AppendFacts(f: Forest, g: Forest)
    ensures Nodes(Append(f, g)) == Nodes(f) + Nodes(g)
    ensures Count(Append(f, g)) == Count(f) + Count(g)
    ensures Preorder(Append(f, g)) == Preorder(f) + Preorder(g)
    ensures AllFlat(Append(f, g)) <==> AllFlat(f) && AllFlat(g)
    ensures KidsFlat(Append(f, g)) <==> KidsFlat(f) && KidsFlat(g)
  {
    if f.Cons? {
      AppendFacts(f.rest, g);
      assert Preorder(Append(f, g)) == [f.m] + Preorder(f.kids) + (Preorder(f.rest) + Preorder(g));
    }
  }

  lemma {:induction false} AppendSeparated(f: Forest, g: Forest)
    ensures Separated(Append(f, g)) <==> Separated(f) && Separated(g) && Nodes(f) !! Nodes(g)
  {
    if f.Cons? {
      AppendSeparated(f.rest, g);
      AppendFacts(f.rest, g);
    }
  }

  lemma {:induction false} ChainAppend(f: Forest, g: Forest, first: Menu?, mid: Menu?, parent: Menu?, tail: Menu?)
    requires Chain(f, first, parent, mid) && Chain(g, mid, parent, tail)
    ensures Chain(Append(f, g), first, parent, tail)
  {
    if f.Cons? {
      AppendFacts(f.rest, g);
      ChainAppend(f.rest, g, f.m.next, mid, parent, tail);
    }
  }

  lemma {:induction false} PreorderNodes(f: Forest)
    ensures forall m :: m in Preorder(f) <==> m in Nodes(f)
    ensures |Preorder(f)| == Count(f)
  {
    if f.Cons? {
      PreorderNodes(f.kids);
      PreorderNodes(f.rest);
    }
  }

  lemma {:induction false} SuffixRest(g: Forest, f: Forest)
    requires g.Cons? && IsSuffix(g, f)
    ensures IsSuffix(g.rest, f)
  {
    if g != f { SuffixRest(g, f.rest); }
  }

  lemma {:induction false} SuffixTrans(h: Forest, g: Forest, f: Forest)
    requires IsSuffix(h, g) && IsSuffix(g, f)
    ensures IsSuffix(h, f)
  {
    if g != f { SuffixTrans(h, g, f.rest); }
  }

  lemma HandOverPreorder(done: Forest, todo: Forest)
    requires todo.Cons?
    ensures Preorder(Append(done, Cons(todo.m, todo.kids, Nil))) + Preorder(todo.rest) == Preorder(done) + Preorder(todo)
  {
    var one := Cons(todo.m, todo.kids, Nil);
    AppendFacts(done, one);
    var x, y, z := Preorder(done), [todo.m] + Preorder(todo.kids), Preorder(todo.rest);
    assert Preorder(one) == y && Preorder(todo) == y + z;
    assert (x + y) + z == x + (y + z);
  }

  /** One entry handed over from a row to the end of the row before it. */
  lemma HandOverOrder(done: Forest, todo: Forest)
    requires todo.Cons? && Separated(done) && Separated(todo) && Nodes(done) !! Nodes(todo)
    ensures
      var done' := Append(done, Cons(todo.m, todo.kids, Nil));
      && Separated(done') && Separated(todo.rest) && Nodes(done') !! Nodes(todo.rest)
      && Nodes(done') + Nodes(todo.rest) == Nodes(done) + Nodes(todo)
      && Preorder(done') + Preorder(todo.rest) == Preorder(done) + Preorder(todo)
      && (KidsFlat(done') <==> KidsFlat(done) && AllFlat(todo.kids))
      && (AllFlat(done') <==> AllFlat(done) && !HiddenSubmenu(todo.m, todo.kids) && AllFlat(todo.kids))
  {
    hide Append, Preorder;
    var one := Cons(todo.m, todo.kids, Nil);
    AppendFacts(done, one);
    AppendSeparated(done, one);
    HandOverPreorder(done, todo);
  }

  lemma HandOver(done: Forest, todo: Forest, first: Menu?, parent: Menu?, tail: Menu?)
    requires todo.Cons?
    requires Chain(done, first, parent, todo.m) && Chain(todo, todo.m, parent, tail)
    ensures Chain(Append(done, Cons(todo.m, todo.kids, Nil)), first, parent, todo.m.next)
    ensures Chain(todo.rest, todo.m.next, parent, tail)
  {
    ChainAppend(done, Cons(todo.m, todo.kids, Nil), first, todo.m, parent, todo.m.next);
  }

  lemma {:induction false} NodesAllocated(f: Forest)
    ensures forall m :: m in Nodes(f) ==> allocated(m)
  {
    if f.Cons? {
      NodesAllocated(f.kids);
      NodesAllocated(f.rest);
    }
  }

  // ---------- Flattening ----------

  /** A row in which the children of every entry without a prompt stand right
      behind it. */
  ghost function Flattened(f: Forest): Forest {
    match f
    case Nil => Nil
    case Cons(m, k, r) => if HiddenSubmenu(m, k) then Cons(m, Nil, Append(k, Flattened(r))) else Cons(m, k, Flattened(r))
  }

  /** The entry `m` stands in the row, with the children `k`. */
  ghost predicate Stands(f: Forest, m: Menu, k: Forest) {
    f.Cons? && ((f.m == m && f.kids == k) || Stands(f.rest, m, k))
  }

  lemma {:induction false} StandsAppend(f: Forest, g: Forest, m: Menu, k: Forest)
    ensures Stands(Append(f, g), m, k) <==> Stands(f, m, k) || Stands(g, m, k)
  {
    if f.Cons? { StandsAppend(f.rest, g, m, k); }
  }

  /** It stands among the children of an entry of the row without a prompt. */
  ghost predicate StandsHidden(f: Forest, m: Menu, k: Forest) {
    f.Cons? && ((!f.m.hasPrompt && Stands(f.kids, m, k)) || StandsHidden(f.rest, m, k))
  }

  /** An entry with a prompt keeps its children; one without has none any more, and
      they stand in the row themselves. Nothing else stands there. */
  lemma {:induction false} FlattenedExactly(f: Forest, m: Menu, k: Forest)
    ensures Stands(Flattened(f), m, k) <==>
      (m.hasPrompt && Stands(f, m, k)) || (!m.hasPrompt && k == Nil && m in Heads(f)) || StandsHidden(f, m, k)
  {
    hide Append;
    if f.Cons? {
      FlattenedExactly(f.rest, m, k);
      StandsAppend(f.kids, Flattened(f.rest), m, k);
    }
  }

  lemma {:induction false} FlattenedAppend(f: Forest, g: Forest)
    ensures AllFlat(f) ==> Flattened(Append(f, g)) == Append(f, Flattened(g))
  {
    if f.Cons? { FlattenedAppend(f.rest, g); }
  }

  lemma FlattenedFirst(done: Forest, todo: Forest)
    requires todo.Cons? && AllFlat(todo.kids)
    ensures
      var hidden := HiddenSubmenu(todo.m, todo.kids);
      var k, r := if hidden then Nil else todo.kids, if hidden then Append(todo.kids, todo.rest) else todo.rest;
      Append(Append(done, Cons(todo.m, k, Nil)), Flattened(r)) == Append(done, Flattened(todo))
  {
    FlattenedAppend(todo.kids, todo.rest);
    var hidden := HiddenSubmenu(todo.m, todo.kids);
    var k, r := if hidden then Nil else todo.kids, if hidden then Append(todo.kids, todo.rest) else todo.rest;
    AppendAssoc(done, Cons(todo.m, k, Nil), Flattened(r));
  }

  lemma {:induction false} AppendNil(f: Forest)
    ensures Append(f, Nil) == f
  {
    if f.Cons? { AppendNil(f.rest); }
  }

  /** Splices the children of every entry without a prompt into the row of its
      parent, right behind it. */
  method FlattenChildren(p: Menu, ghost kids: Forest) returns (ghost flat: Forest)
    requires Separated(kids) && p !in Nodes(kids) && KidsFlat(kids)
    requires Chain(kids, p.list, p, null)
    modifies Nodes(kids)`next, Nodes(kids)`list, Nodes(kids)`parent
    ensures Chain(flat, p.list, p, null) && Separated(flat) && AllFlat(flat)
    ensures Preorder(flat) == Preorder(kids) && Nodes(flat) == Nodes(kids)
    ensures flat == Flattened(kids)
  {
    hide Append, Flattened;
    var menu := p.list;
    ghost var done, todo := Nil, kids;
    AppendEmpty(Flattened(kids));
    while menu != null
      invariant Append(done, Flattened(todo)) == Flattened(kids)
      invariant Chain(done, p.list, p, menu) && Chain(todo, menu, p, null)
      invariant Separated(done) && Separated(todo) && Nodes(done) !! Nodes(todo)
      invariant Nodes(done) + Nodes(todo) == Nodes(kids)
      invariant Preorder(done) + Preorder(todo) == Preorder(kids)
      invariant AllFlat(done) && KidsFlat(todo)
      decreases Count(todo)
    {
      ghost var k, r := todo.kids, todo.rest;
      FlattenedFirst(done, todo);
      if menu.list != null && !menu.hasPrompt {
        NodesAllocated(done);
        SplicedOrder(todo);
        SplicedRow(todo);
        SpliceChildren(menu, p, k, r);
        k, r := Nil, Append(k, r);
      }
      HandOver(done, Cons(menu, k, r), p.list, p, null);
      HandOverOrder(done, Cons(menu, k, r));
      done, todo := Append(done, Cons(menu, k, Nil)), r;
      menu := menu.next;
    }
    flat := done;
    FlattenedNil();
    AppendNil(done);
  }

  lemma AppendEmpty(f: Forest)
    ensures Append(Nil, f) == f
  {
  }

  lemma FlattenedNil()
    ensures Flattened(Nil) == Nil
  {
  }

  lemma {:induction false} AllFlatIsKidsFlat(f: Forest)
    requires AllFlat(f)
    ensures KidsFlat(f)
  {
    if f.Cons? { AllFlatIsKidsFlat(f.rest); }
  }

  /** The row in which the children of the first entry are spliced. */
  ghost function Spliced(f: Forest): Forest
    requires f.Cons?
  {
    Cons(f.m, Nil, Append(f.kids, f.rest))
  }

  /** Entry, children, siblings: the same order whether nested or spliced. */
  lemma SplicedOrder(f: Forest)
    requires f.Cons?
    ensures Preorder(Spliced(f)) == Preorder(f)
  {
    AppendFacts(f.kids, f.rest);
    var order := Preorder(f.kids) + Preorder(f.rest);
    assert Preorder(f) == [f.m] + order;
    assert Preorder(Spliced(f)) == [f.m] + order;
  }

  lemma SplicedRow(f: Forest)
    requires f.Cons? && Separated(f) && KidsFlat(f)
    ensures Nodes(Spliced(f)) == Nodes(f) && Separated(Spliced(f))
    ensures KidsFlat(Spliced(f)) && Count(Spliced(f).rest) < Count(f)
  {
    AppendFacts(f.kids, f.rest);
    AppendSeparated(f.kids, f.rest);
    AllFlatIsKidsFlat(f.kids);
  }

  /** Gives the row `k` of `menu` the new parent `p`; returns its last entry. */
  method Reparent(menu: Menu, p: Menu, ghost k: Forest) returns (last: Menu, ghost front: Forest, ghost lk: Forest)
    requires k != Nil && Separated(k) && menu !in Nodes(k)
    requires Chain(k, menu.list, menu, null)
    modifies Nodes(k)`parent
    ensures k == Append(front, Cons(last, lk, Nil))
    ensures Chain(front, menu.list, p, last) && last.parent == p && last.next == null
    ensures Chain(lk, last.list, last, null)
  {
    last := menu.list;
    front := Nil;
    ghost var back := k;
    last.parent := p;
    while last.next != null
      invariant back.Cons? && back.m == last && k == Append(front, back)
      invariant Separated(front) && Separated(back) && Nodes(front) !! Nodes(back)
      invariant Nodes(back) <= Nodes(k) && menu !in Nodes(front)
      invariant Chain(front, menu.list, p, last)
      invariant last.parent == p && Chain(back.kids, last.list, last, null)
      invariant Chain(back.rest, last.next, menu, null)
      decreases Count(back)
    {
      front, back := ExtendFront(front, back, menu.list, p);
      last := last.next;
      last.parent := p;
    }
    lk := back.kids;
  }

  lemma ExtendFront(front: Forest, back: Forest, first: Menu?, p: Menu) returns (front': Forest, back': Forest)
    requires back.Cons? && Separated(front) && Separated(back) && Nodes(front) !! Nodes(back)
    requires Chain(front, first, p, back.m)
    requires back.m.parent == p && Chain(back.kids, back.m.list, back.m, null)
    ensures back' == back.rest && Append(front', back') == Append(front, back)
    ensures Nodes(front') == Nodes(front) + {back.m} + Nodes(back.kids)
    ensures Separated(front') && Separated(back') && Nodes(front') !! Nodes(back')
    ensures Chain(front', first, p, back.m.next)
  {
    var one := Cons(back.m, back.kids, Nil);
    front', back' := Append(front, one), back.rest;
    AppendAssoc(front, one, back.rest);
    AppendFacts(front, one);
    AppendSeparated(front, one);
    ChainAppend(front, one, first, back.m, p, back.m.next);
  }

  /** Moves the children `k` of `menu` into the row of `menu`, before `r`. */
  method SpliceChildren(menu: Menu, p: Menu, ghost k: Forest, ghost r: Forest)
    requires k != Nil && Separated(k) && Nodes(k) !! Nodes(r) && menu !in Nodes(k) && menu !in Nodes(r)
    requires Chain(k, menu.list, menu, null) && Chain(r, menu.next, p, null)
    modifies Nodes(k)`next, Nodes(k)`parent, menu`next, menu`list
    ensures menu.list == null
    ensures Chain(Append(k, r), menu.next, p, null)
  {
    NodesAllocated(r);
    var last, front, lk := Reparent(menu, p, k);
    assert last in Nodes(k) && last !in Nodes(front) && last !in Nodes(lk)
           && Nodes(front) <= Nodes(k) && Nodes(lk) <= Nodes(k) by {
      AppendSeparated(front, Cons(last, lk, Nil));
      AppendFacts(front, Cons(last, lk, Nil));
    }
    LinkBehind(menu, p, last, front, lk, r);
    ChainAppend(front, Cons(last, lk, r), menu.next, last, p, null);
    AppendAssoc(front, Cons(last, lk, Nil), r);
  }

  /** The pointer writes of the splice. */
  method LinkBehind(menu: Menu, p: Menu, last: Menu, ghost front: Forest, ghost lk: Forest, ghost r: Forest)
    requires last != menu && last !in Nodes(front) && last !in Nodes(lk) && last !in Nodes(r)
    requires menu !in Nodes(front) && menu !in Nodes(lk) && menu !in Nodes(r)
    requires Chain(front, menu.list, p, last) && last.parent == p
    requires Chain(lk, last.list, last, null) && Chain(r, menu.next, p, null)
    modifies last`next, menu`next, menu`list
    ensures menu.list == null
    ensures Chain(front, menu.next, p, last) && Chain(Cons(last, lk, r), last, p, null)
  {
    last.next := menu.next;
    menu.next := menu.list;
    menu.list := null;
  }

  lemma {:induction false} AppendAssoc(f: Forest, g: Forest, h: Forest)
    ensures Append(Append(f, g), h) == Append(f, Append(g, h))
  {
    if f.Cons? { AppendAssoc(f.rest, g, h); }
  }

  // ---------- Propagation ----------

  ghost function Heads(f: Forest): set<Menu> {
    match f
    case Nil => {}
    case Cons(m, _, r) => {m} + Heads(r)
  }

  lemma {:induction false} HeadsAreNodes(f: Forest)
    ensures Heads(f) <= Nodes(f)
  {
    if f.Cons? { HeadsAreNodes(f.rest); }
  }

  lemma ChainFirst(f: Forest, first: Menu, parent: Menu?)
    requires Chain(f, first, parent, null)
    ensures f.Cons? && f.m == first && Chain(f.kids, first.list, first, null) && Chain(f.rest, first.next, parent, null)
  {
  }

  lemma {:induction false} SuffixHeads(g: Forest, f: Forest)
    requires IsSuffix(g, f) && Separated(f)
    ensures Nodes(g) <= Nodes(f) && Heads(g) <= Heads(f) && Nodes(g) - Heads(g) <= Nodes(f) - Heads(f)
  {
    HeadsAreNodes(f);
    if g != f { SuffixHeads(g, f.rest); }
  }

  /** What the children of `p` inherit: the choice itself for a choice, the
      prompt condition for a menu, the dependency for an `if`. */
  function Inherited(p: Menu): Option<Expr>
    reads p`dep, p`vis
  {
    if p.isChoice && p.sym.Some? then Some(Symbol(p.sym.value))
    else if p.hasPrompt then p.vis
    else p.dep
  }

  /** The child's dependency and prompt condition carry the inherited one. */
  ghost predicate ChildUpdated(inherited: Option<Expr>, c: Menu, dep: Option<Expr>, vis: Option<Expr>, modules: Sym)
    reads c`dep, c`vis
  {
    && IsPropagated(inherited, dep, modules, c.dep)
    && (if !c.hasPrompt then c.vis == vis
        else if c.sym.Some? && !c.sym.value.kind.TristateKind? then IsPropagatedBool(c.dep, vis, modules, c.vis)
        else IsPropagated(c.dep, vis, modules, c.vis))
  }

  /** The entries of a row as they were, with their dependencies and prompt
      conditions, and everything below them. */
  datatype Record = Nothing | Entry(m: Menu, dep: Option<Expr>, vis: Option<Expr>, kids: Record, rest: Record)

  ghost function Recorded(d: Record): set<Menu> {
    match d
    case Nothing => {}
    case Entry(m, _, _, k, r) => {m} + Recorded(k) + Recorded(r)
  }

  ghost function Tops(d: Record): (s: set<Menu>)
    ensures s <= Recorded(d)
  {
    if d.Entry? then {d.m} + Tops(d.rest) else {}
  }

  ghost function RecordOf(f: Forest): Record
    reads Nodes(f)`dep, Nodes(f)`vis
  {
    match f
    case Nil => Nothing
    case Cons(m, k, r) => Entry(m, m.dep, m.vis, RecordOf(k), RecordOf(r))
  }

  ghost predicate Matches(d: Record, f: Forest) {
    match f
    case Nil => d == Nothing
    case Cons(m, k, r) => d.Entry? && d.m == m && Matches(d.kids, k) && Matches(d.rest, r)
  }

  /** Nothing changed since. */
  ghost predicate Still(d: Record)
    reads Recorded(d)`dep, Recorded(d)`vis
  {
    match d
    case Nothing => true
    case Entry(m, dep, vis, k, r) => m.dep == dep && m.vis == vis && Still(k) && Still(r)
  }

  /** Nothing changed below the entries of the row. */
  ghost predicate KidsStill(d: Record)
    reads Recorded(d)`dep, Recorded(d)`vis
  {
    d.Entry? ==> Still(d.kids) && KidsStill(d.rest)
  }

  ghost function Join(d: Record, e: Record): Record {
    match d
    case Nothing => e
    case Entry(m, dep, vis, k, r) => Entry(m, dep, vis, k, Join(r, e))
  }

  /** All entries of the row have taken in the inherited dependency. */
  ghost predicate HeadsUpdated(d: Record, inherited: Option<Expr>, modules: Sym)
    reads Tops(d)`dep, Tops(d)`vis
  {
    d.Entry? ==> ChildUpdated(inherited, d.m, d.dep, d.vis, modules) && HeadsUpdated(d.rest, inherited, modules)
  }

  /** All entries below the row have taken in what they inherit from the entry
      they were defined under. */
  ghost predicate BelowUpdated(d: Record, modules: Sym)
    reads Recorded(d)`dep, Recorded(d)`vis
  {
    d.Entry? ==>
      && HeadsUpdated(d.kids, Inherited(d.m), modules) && BelowUpdated(d.kids, modules)
      && BelowUpdated(d.rest, modules)
  }

  lemma {:induction false} RecordFacts(f: Forest)
    ensures Matches(RecordOf(f), f) && Still(RecordOf(f))
  {
    if f.Cons? {
      RecordFacts(f.kids);
      RecordFacts(f.rest);
    }
  }

  lemma {:induction false} MatchingNodes(d: Record, f: Forest)
    requires Matches(d, f)
    ensures Recorded(d) == Nodes(f) && Tops(d) == Heads(f) && Tops(d) <= Recorded(d)
  {
    if f.Cons? {
      MatchingNodes(d.kids, f.kids);
      MatchingNodes(d.rest, f.rest);
    }
  }

  lemma {:induction false} RecordedAllocated(d: Record)
    ensures forall m :: m in Recorded(d) ==> allocated(m)
    ensures forall m :: m in Tops(d) ==> allocated(m)
  {
    if d.Entry? {
      RecordedAllocated(d.kids);
      RecordedAllocated(d.rest);
    }
  }

  lemma {:induction false} StillKids(d: Record)
    requires Still(d)
    ensures KidsStill(d)
  {
    if d.Entry? { StillKids(d.rest); }
  }

  lemma {:induction false} JoinFacts(d: Record, e: Record, inherited: Option<Expr>, modules: Sym)
    ensures Recorded(Join(d, e)) == Recorded(d) + Recorded(e)
    ensures KidsStill(Join(d, e)) <==> KidsStill(d) && KidsStill(e)
    ensures HeadsUpdated(Join(d, e), inherited, modules) <==> HeadsUpdated(d, inherited, modules) && HeadsUpdated(e, inherited, modules)
    ensures BelowUpdated(Join(d, e), modules) <==> BelowUpdated(d, modules) && BelowUpdated(e, modules)
  {
    if d.Entry? { JoinFacts(d.rest, e, inherited, modules); }
  }

  lemma {:induction false} JoinAssoc(d: Record, e: Record, g: Record)
    ensures Join(Join(d, e), g) == Join(d, Join(e, g))
    ensures Join(d, Nothing) == d && Join(Nothing, d) == d
  {
    if d.Entry? { JoinAssoc(d.rest, e, g); }
  }

  method UpdateChild(inherited: Option<Expr>, c: Menu, modules: Sym, count: Counter)
    modifies c`dep, c`vis, count
    ensures ChildUpdated(inherited, c, old(c.dep), old(c.vis), modules)
    ensures count.n == old(count.n)
  {
    var dep := Propagate(inherited, c.dep, modules, count);
    var vis := c.vis;
    if c.hasPrompt {
      if c.sym.Some? && !c.sym.value.kind.TristateKind? {
        vis := PropagateBool(dep, vis, modules, count);
      } else {
        vis := Propagate(dep, vis, modules, count);
      }
    }
    c.dep, c.vis := dep, vis;
  }

  /** Of the row recorded as `d`, the entries in `done` are updated and those in
      `left`, which are the row `todo`, are as they were. */
  ghost predicate Spread(d: Record, done: Record, left: Record, todo: Forest, inherited: Option<Expr>, modules: Sym)
    reads Recorded(done)`dep, Recorded(done)`vis, Recorded(left)`dep, Recorded(left)`vis
  {
    && d == Join(done, left) && Matches(left, todo) && Still(left) && Recorded(done) !! Nodes(todo)
    && HeadsUpdated(done, inherited, modules) && KidsStill(done)
  }

  lemma SpreadNothing(d: Record, f: Forest, inherited: Option<Expr>, modules: Sym)
    requires Matches(d, f) && Still(d)
    ensures Spread(d, Nothing, d, f, inherited, modules)
  {
  }

  lemma SpreadAll(d: Record, done: Record, left: Record, inherited: Option<Expr>, modules: Sym)
    requires Spread(d, done, left, Nil, inherited, modules)
    ensures HeadsUpdated(d, inherited, modules) && KidsStill(d)
  {
    JoinAssoc(done, Nothing, Nothing);
  }

  lemma SpreadNext(d: Record, done: Record, left: Record, todo: Forest, inherited: Option<Expr>, modules: Sym)
    requires todo.Cons? && Separated(todo) && d == Join(done, left) && Matches(left, todo) && Recorded(done) !! Nodes(todo)
    requires HeadsUpdated(done, inherited, modules) && KidsStill(done) && Still(left.kids) && Still(left.rest)
    requires ChildUpdated(inherited, left.m, left.dep, left.vis, modules)
    ensures Spread(d, Join(done, left.(rest := Nothing)), left.rest, todo.rest, inherited, modules)
  {
    hide ChildUpdated, Join;
    var one := left.(rest := Nothing);
    JoinFacts(done, one, inherited, modules);
    JoinAssoc(done, one, left.rest);
    MatchingNodes(left.kids, todo.kids);
    OneMore(left);
  }

  lemma SpreadFirst(d: Record, done: Record, left: Record, todo: Forest, inherited: Option<Expr>, modules: Sym)
    requires todo.Cons? && Separated(todo) && Spread(d, done, left, todo, inherited, modules)
    ensures d == Join(done, left) && Matches(left, todo) && left.Entry? && left.m == todo.m
    ensures Recorded(done) !! Nodes(todo) && HeadsUpdated(done, inherited, modules) && KidsStill(done)
    ensures left.m.dep == left.dep && left.m.vis == left.vis && Still(left.kids) && Still(left.rest)
    ensures left.m !in Tops(done) && left.m !in Recorded(done) && left.m !in Recorded(left.kids) && left.m !in Recorded(left.rest)
    ensures Recorded(left.kids) <= Recorded(left) && Recorded(left.rest) <= Recorded(left)
  {
    MatchingNodes(left.kids, todo.kids);
    MatchingNodes(left.rest, todo.rest);
  }

  lemma OneMore(left: Record)
    requires left.Entry?
    ensures Join(left.(rest := Nothing), left.rest) == left
  {
  }

  method UpdateNext(inherited: Option<Expr>, menu: Menu, modules: Sym, count: Counter,
                    ghost d: Record, ghost done: Record, ghost left: Record, ghost todo: Forest) returns (ghost done': Record, ghost left': Record)
    requires todo.Cons? && todo.m == menu && Separated(todo) && Spread(d, done, left, todo, inherited, modules)
    modifies menu`dep, menu`vis, count
    ensures Spread(d, done', left', todo.rest, inherited, modules) && count.n == old(count.n)
  {
    hide HeadsUpdated, KidsStill, ChildUpdated, Join, IsPropagated, IsPropagatedBool;
    SpreadFirst(d, done, left, todo, inherited, modules);
    hide Spread;
    RecordedAllocated(done);
    RecordedAllocated(left);
    UpdateChild(inherited, menu, modules, count);
    SpreadNext(d, done, left, todo, inherited, modules);
    done', left' := Join(done, left.(rest := Nothing)), left.rest;
  }

  method PropagateToChildren(p: Menu, modules: Sym, count: Counter, ghost kids: Forest, ghost d: Record)
    requires Separated(kids) && p !in Nodes(kids) && Chain(kids, p.list, p, null)
    requires Matches(d, kids) && Still(d)
    modifies Heads(kids)`dep, Heads(kids)`vis, count
    ensures HeadsUpdated(d, Inherited(p), modules) && KidsStill(d)
    ensures RowMeans(p, d, modules)
    ensures count.n == old(count.n)
  {
    hide Spread, RowMeans, Normal;
    HeadsAreNodes(kids);
    NodesAllocated(kids);
    var inherited := Inherited(p);
    var menu := p.list;
    ghost var todo := kids;
    ghost var done, left := Nothing, d;
    SpreadNothing(d, kids, inherited, modules);
    while menu != null
      invariant Chain(todo, menu, p, null) && Separated(todo) && Heads(todo) <= Heads(kids)
      invariant Spread(d, done, left, todo, inherited, modules)
      invariant count.n == old(count.n)
      decreases Count(todo)
    {
      NodesAllocated(todo);
      done, left := UpdateNext(inherited, menu, modules, count, d, done, left, todo);
      ChainFirst(todo, menu, p);
      todo, menu := todo.rest, menu.next;
    }
    SpreadAll(d, done, left, inherited, modules);
    ChildrenMeaning(p, d, modules);
  }

  // ---------- What the dependencies mean ----------

  /** What bounds the entries defined under `p`: the value of a choice, the prompt
      condition of a menu, the dependency of an `if`. */
  ghost function BlockValue(p: Menu, env: Env): Tristate
    reads p`dep, p`vis
  {
    if p.isChoice && p.sym.Some? then env.tri(p.sym.value)
    else if p.hasPrompt then (if p.vis.None? then YES else Eval(p.vis.value, env))
    else (if p.dep.None? then YES else Eval(p.dep.value, env))
  }

  /** The condition `v` of a prompt is the conjunction `w`; for a symbol that is not
      tristate only whether it is n counts. */
  predicate PromptMeant(m: Menu, v: Tristate, w: Tristate) {
    if m.sym.Some? && m.sym.value.kind != TristateKind then v <= w && (v == NO <==> w == NO) else v == w
  }

  /** The dependency of every entry of the row is its own, with m bounded by the modules
      symbol, and `bound`; its prompt condition is its own and this dependency. */
  ghost predicate RowMeant(bound: Tristate, d: Record, modules: Sym, env: Env)
    reads Tops(d)`dep, Tops(d)`vis
  {
    d.Entry? ==>
      && EvalOpt(d.m.dep, env) == TriAnd(bound, EvalOpt(d.dep, BoundedMod(env, modules)))
      && (if d.m.hasPrompt then
            PromptMeant(d.m, EvalOpt(d.m.vis, env), TriAnd(EvalOpt(d.m.dep, env), EvalOpt(d.vis, BoundedMod(env, modules))))
          else d.m.vis == d.vis)
      && RowMeant(bound, d.rest, modules, env)
  }

  /** The same below every entry, bounded by the block it was defined in. */
  ghost predicate TreeMeant(d: Record, modules: Sym, env: Env)
    reads Recorded(d)`dep, Recorded(d)`vis
  {
    d.Entry? ==>
      RowMeant(BlockValue(d.m, env), d.kids, modules, env) && TreeMeant(d.kids, modules, env) && TreeMeant(d.rest, modules, env)
  }

  /** What the entries compare with constants. */
  ghost function RecordCompared(d: Record): set<(Sym, Sym)> {
    match d
    case Nothing => {}
    case Entry(_, dep, vis, k, r) => ComparedOpt(dep) + ComparedOpt(vis) + RecordCompared(k) + RecordCompared(r)
  }

  /** What an entry hands down is normal and compares nothing else. */
  ghost predicate HandsDown(p: Menu, pairs: set<(Sym, Sym)>)
    reads p`dep, p`vis
  {
    NormalOpt(Inherited(p)) && ComparedOpt(Inherited(p)) <= pairs
  }

  ghost predicate RowHandsDown(d: Record, pairs: set<(Sym, Sym)>)
    reads Tops(d)`dep, Tops(d)`vis
  {
    d.Entry? ==> HandsDown(d.m, pairs) && RowHandsDown(d.rest, pairs)
  }

  lemma InheritedMeans(p: Menu, env: Env)
    ensures EvalOpt(Inherited(p), env) == BlockValue(p, env)
  {
  }

  lemma ApartFewer(env: Env, pairs: set<(Sym, Sym)>, fewer: set<(Sym, Sym)>)
    requires Apart(env, pairs) && fewer <= pairs
    ensures Apart(env, fewer)
  {
  }

  lemma {:induction false} ChildMeaning(inherited: Option<Expr>, c: Menu, dep: Option<Expr>, vis: Option<Expr>, modules: Sym,
                                       pairs: set<(Sym, Sym)>, env: Env)
    requires ChildUpdated(inherited, c, dep, vis, modules) && NormalOpt(inherited)
    requires ComparedOpt(inherited) + ComparedOpt(dep) + ComparedOpt(vis) <= pairs && Admissible(env) && Apart(env, pairs)
    ensures EvalOpt(c.dep, env) == TriAnd(EvalOpt(inherited, env), EvalOpt(dep, BoundedMod(env, modules)))
    ensures
      if c.hasPrompt then
        PromptMeant(c, EvalOpt(c.vis, env), TriAnd(EvalOpt(c.dep, env), EvalOpt(vis, BoundedMod(env, modules))))
      else c.vis == vis
    ensures HandsDown(c, pairs)
  {
    ApartFewer(env, pairs, ComparedOpt(inherited) + ComparedOpt(dep));
    ApartFewer(env, pairs, ComparedOpt(c.dep) + ComparedOpt(vis));
    hide Admissible, Apart, Eval, BoundedMod, Compared, Normal;
    assert forall s: Sym :: Compared(Symbol(s)) == {} && Normal(Symbol(s)) by { SymbolIsNormal(); }
  }

  lemma SymbolIsNormal()
    ensures forall s: Sym :: Compared(Symbol(s)) == {} && Normal(Symbol(s))
  {
  }

  lemma {:induction false} RowMeaning(inherited: Option<Expr>, d: Record, modules: Sym, pairs: set<(Sym, Sym)>, env: Env)
    requires HeadsUpdated(d, inherited, modules) && NormalOpt(inherited)
    requires ComparedOpt(inherited) + RecordCompared(d) <= pairs && Admissible(env) && Apart(env, pairs)
    ensures RowMeant(EvalOpt(inherited, env), d, modules, env) && RowHandsDown(d, pairs)
  {
    hide ChildUpdated, Admissible, Apart, HandsDown;
    if d.Entry? {
      ChildMeaning(inherited, d.m, d.dep, d.vis, modules, pairs, env);
      RowMeaning(inherited, d.rest, modules, pairs, env);
    }
  }

  lemma {:induction false} TreeMeaning(d: Record, modules: Sym, pairs: set<(Sym, Sym)>, env: Env)
    requires BelowUpdated(d, modules) && RowHandsDown(d, pairs)
    requires RecordCompared(d) <= pairs && Admissible(env) && Apart(env, pairs)
    ensures TreeMeant(d, modules, env)
  {
    hide HeadsUpdated, Admissible, Apart, RowMeant, Inherited;
    if d.Entry? {
      RowMeaning(Inherited(d.m), d.kids, modules, pairs, env);
      InheritedMeans(d.m, env);
      TreeMeaning(d.kids, modules, pairs, env);
      TreeMeaning(d.rest, modules, pairs, env);
    }
  }

  /** All entries of a tree mean what they should, in admissible assignments that keep
      apart the constants compared with, if what the root hands down is normal. */
  ghost predicate Meant(root: Menu, d: Record, modules: Sym)
    reads root`dep, root`vis, Recorded(d)`dep, Recorded(d)`vis
  {
    NormalOpt(root.dep) && NormalOpt(root.vis) ==>
      forall env: Env :: Admissible(env) && Apart(env, ComparedOpt(root.dep) + ComparedOpt(root.vis) + RecordCompared(d)) ==>
        RowMeant(BlockValue(root, env), d, modules, env) && TreeMeant(d, modules, env)
  }

  lemma WholeMeaning(root: Menu, d: Record, modules: Sym)
    requires HeadsUpdated(d, Inherited(root), modules) && BelowUpdated(d, modules)
    ensures Meant(root, d, modules)
  {
    if NormalOpt(root.dep) && NormalOpt(root.vis) {
      var pairs := ComparedOpt(root.dep) + ComparedOpt(root.vis) + RecordCompared(d);
      SymbolIsNormal();
      assert NormalOpt(Inherited(root)) && ComparedOpt(Inherited(root)) <= pairs;
      forall env: Env | Admissible(env) && Apart(env, pairs)
        ensures RowMeant(BlockValue(root, env), d, modules, env) && TreeMeant(d, modules, env)
      {
        hide HeadsUpdated, BelowUpdated, Admissible, Apart, Inherited, BlockValue, RowMeant, TreeMeant;
        RowMeaning(Inherited(root), d, modules, pairs, env);
        InheritedMeans(root, env);
        TreeMeaning(d, modules, pairs, env);
      }
    }
  }

  /** The same of the children of one entry. */
  ghost predicate RowMeans(p: Menu, d: Record, modules: Sym)
    reads p`dep, p`vis, Tops(d)`dep, Tops(d)`vis
  {
    NormalOpt(p.dep) && NormalOpt(p.vis) ==>
      forall env: Env :: Admissible(env) && Apart(env, ComparedOpt(p.dep) + ComparedOpt(p.vis) + RecordCompared(d)) ==>
        RowMeant(BlockValue(p, env), d, modules, env)
  }

  lemma ChildrenMeaning(p: Menu, d: Record, modules: Sym)
    requires HeadsUpdated(d, Inherited(p), modules)
    ensures RowMeans(p, d, modules)
  {
    if NormalOpt(p.dep) && NormalOpt(p.vis) {
      var pairs := ComparedOpt(p.dep) + ComparedOpt(p.vis) + RecordCompared(d);
      SymbolIsNormal();
      assert NormalOpt(Inherited(p)) && ComparedOpt(Inherited(p)) <= pairs;
      forall env: Env | Admissible(env) && Apart(env, pairs)
        ensures RowMeant(BlockValue(p, env), d, modules, env)
      {
        hide HeadsUpdated, Admissible, Apart, Inherited, BlockValue, RowMeant;
        RowMeaning(Inherited(p), d, modules, pairs, env);
        InheritedMeans(p, env);
      }
    }
  }

  /** `m` is defined somewhere in the row, or below it and outside of its choices. */
  predicate DefinedIn(d: Record, m: Menu) {
    d.Entry? && (d.m == m || (!(d.m.isChoice && d.m.sym.Some?) && DefinedIn(d.kids, m)) || DefinedIn(d.rest, m))
  }

  /** `p` encloses `m`, with no choice between them. */
  predicate Encloses(d: Record, p: Menu, m: Menu) {
    d.Entry? && ((d.m == p && DefinedIn(d.kids, m)) || Encloses(d.kids, p, m) || Encloses(d.rest, p, m))
  }

  /** An entry is n wherever an enclosing `if` or menu is n, up to the nearest choice,
      and this choice included. */
  lemma {:induction false} EnclosedIsNo(d: Record, p: Menu, m: Menu, modules: Sym, env: Env)
    requires TreeMeant(d, modules, env) && Encloses(d, p, m) && BlockValue(p, env) == NO
    ensures m in Recorded(d) && EvalOpt(m.dep, env) == NO
  {
    hide RowMeant, BlockValue;
    if d.m == p && DefinedIn(d.kids, m) {
      DefinedIsNo(d.kids, m, modules, env);
    } else if Encloses(d.kids, p, m) {
      EnclosedIsNo(d.kids, p, m, modules, env);
    } else {
      EnclosedIsNo(d.rest, p, m, modules, env);
    }
  }

  lemma {:induction false} DefinedIsNo(d: Record, m: Menu, modules: Sym, env: Env)
    requires RowMeant(NO, d, modules, env) && TreeMeant(d, modules, env) && DefinedIn(d, m)
    ensures m in Recorded(d) && EvalOpt(m.dep, env) == NO
  {
    if d.m == m {
    } else if !(d.m.isChoice && d.m.sym.Some?) && DefinedIn(d.kids, m) {
      assert BlockValue(d.m, env) == NO by { BlockIsNo(d, modules, env); }
      DefinedIsNo(d.kids, m, modules, env);
    } else {
      DefinedIsNo(d.rest, m, modules, env);
    }
  }

  lemma BlockIsNo(d: Record, modules: Sym, env: Env)
    requires d.Entry? && RowMeant(NO, d, modules, env) && !(d.m.isChoice && d.m.sym.Some?)
    ensures BlockValue(d.m, env) == NO
  {
    assert EvalOpt(d.m.dep, env) == NO;
  }

  // ---------- Automatic submenus ----------

  function EntryDep(e: Menu): Option<Expr>
    reads e`dep, e`vis
  {
    if e.hasPrompt then e.vis else e.dep
  }

  function PromptCondition(p: Menu): Option<Expr>
    reads p`vis
  {
    if p.hasPrompt then p.vis else None
  }

  /** An entry with this dependency moves below the symbol: it mentions the symbol,
      and either depends absolutely on it or passes the "superset" test against
      the visibility of the symbol's prompt. */
  predicate BelongsUnder(dep: Option<Expr>, s: Sym, vis: Option<Expr>) {
    dep.Some? && ContainsSymbol(dep.value, s) && (DependsOnSymbol(dep.value, s) || Passes(dep, vis))
  }

  /** Then it is n where the symbol is n, or the visibility covers it. */
  lemma BelongsMeans(dep: Option<Expr>, s: Sym, vis: Option<Expr>)
    requires BelongsUnder(dep, s, vis)
    ensures Covered(dep, vis) || (IsTriKind(s) ==> forall env: Env :: Admissible(env) && env.tri(s) == NO ==> EvalOpt(dep, env) == NO)
  {
    if DependsOnSymbol(dep.value, s) {
      if IsTriKind(s) {
        forall env: Env | Admissible(env) && env.tri(s) == NO
          ensures Eval(dep.value, env) == NO
        {
          DependsOnSymbolSound(dep.value, s, env);
        }
      }
    } else {
      PassingIsCovered(dep, vis);
    }
  }

  /** Decides whether `e` moves below a symbol whose prompt test is `base`. */
  method MovesUnder(e: Menu, s: Sym, base: Expr, ghost vis: Option<Expr>, count: Counter) returns (b: bool)
    requires base == TestOf(vis)
    modifies count
    ensures b <==> BelongsUnder(if e.hasPrompt then e.vis else e.dep, s, vis)
    ensures b && !DependsOnSymbol(EntryDep(e).value, s) ==> Covered(EntryDep(e), vis)
    ensures count.n == old(count.n)
  {
    hide Covered, Passes, TestOf;
    var dep := EntryDep(e);
    if dep.None? || !ContainsSymbol(dep.value, s) {
      return false;
    }
    if DependsOnSymbol(dep.value, s) {
      return true;
    }
    b := IsSuperset(dep, base, vis, count);
  }

  // ---------- The rearranged tree as a function of the decisions ----------

  /** The answers to "does the first entry move under the second". */
  datatype Decisions = Decisions(yes: set<(Menu, Menu)>, no: set<(Menu, Menu)>)

  ghost function Both(d: Decisions, e: Decisions): Decisions {
    Decisions(d.yes + e.yes, d.no + e.no)
  }

  /** The row from its first entry on, with this entry finished: it keeps its own
      children, each finished in turn, or takes in the siblings that move under
      it; children of entries without a prompt are spliced. */
  ghost function Tree(f: Forest, d: Decisions): (g: Forest)
    requires f.Cons?
    ensures g.Cons? && g.m == f.m && IsSuffix(g.rest, f.rest) && Count(g.rest) <= Count(f.rest)
    decreases Count(f), 0
  {
    if f.kids.Cons? then Cons(f.m, Flattened(RowTo(f.kids, Nil, d)), f.rest)
    else if f.m.sym.Some? then
      var stop := Stop(f.m, f.rest, d);
      Cons(f.m, Flattened(RowTo(f.rest, stop, d)), stop)
    else Cons(f.m, Flattened(Nil), f.rest)
  }

  /** Where the siblings that move under `p` end. */
  ghost function Stop(p: Menu, f: Forest, d: Decisions): (g: Forest)
    ensures IsSuffix(g, f) && Count(g) <= Count(f)
    decreases Count(f), 1
  {
    if f.Cons? && (f.m, p) in d.yes then
      var g := Tree(f, d);
      var stop := Stop(p, g.rest, d);
      SuffixOfTree(stop, g.rest, f);
      stop
    else f
  }

  lemma SuffixOfTree(h: Forest, g: Forest, f: Forest)
    requires f.Cons? && IsSuffix(h, g) && IsSuffix(g, f.rest)
    ensures IsSuffix(h, f)
  {
    SuffixTrans(h, g, f.rest);
  }

  /** The entries of the row before `stop`, each finished in turn. */
  ghost function RowTo(f: Forest, stop: Forest, d: Decisions): Forest
    decreases Count(f), 1
  {
    if f == stop || f.Nil? then Nil
    else
      var g := Tree(f, d);
      Cons(g.m, g.kids, RowTo(g.rest, stop, d))
  }

  /** The entry that ends every run of siblings has been turned down. */
  ghost predicate TreeDecided(f: Forest, d: Decisions)
    requires f.Cons?
    decreases Count(f), 0
  {
    if f.kids.Cons? then RowDecided(f.kids, Nil, d)
    else f.m.sym.Some? ==>
      var stop := Stop(f.m, f.rest, d);
      RowDecided(f.rest, stop, d) && (stop.Cons? ==> (stop.m, f.m) in d.no)
  }

  ghost predicate RowDecided(f: Forest, stop: Forest, d: Decisions)
    decreases Count(f), 1
  {
    f == stop || f.Nil? || (TreeDecided(f, d) && RowDecided(Tree(f, d).rest, stop, d))
  }

  /** Finishing entries from the first one on comes to `stop`. */
  ghost predicate Meets(f: Forest, stop: Forest, d: Decisions)
    decreases Count(f)
  {
    f == stop || (f.Cons? && Meets(Tree(f, d).rest, stop, d))
  }

  /** The same with all entries on the way moving under `p`. */
  ghost predicate Reaches(p: Menu, f: Forest, left: Forest, d: Decisions)
    decreases Count(f)
  {
    f == left || (f.Cons? && (f.m, p) in d.yes && Reaches(p, Tree(f, d).rest, left, d))
  }

  lemma {:induction false} MeetsSuffix(f: Forest, stop: Forest, d: Decisions)
    requires Meets(f, stop, d)
    ensures IsSuffix(stop, f) && Count(stop) <= Count(f)
    decreases Count(f)
  {
    if f != stop {
      MeetsSuffix(Tree(f, d).rest, stop, d);
      SuffixOfTree(stop, Tree(f, d).rest, f);
    }
  }

  lemma {:induction false} StopIsMet(p: Menu, f: Forest, d: Decisions)
    ensures Meets(f, Stop(p, f, d), d)
    decreases Count(f)
  {
    if f.Cons? && (f.m, p) in d.yes {
      StopIsMet(p, Tree(f, d).rest, d);
    }
  }

  lemma {:induction false} EndIsMet(f: Forest, d: Decisions)
    ensures Meets(f, Nil, d)
    decreases Count(f)
  {
    if f.Cons? {
      EndIsMet(Tree(f, d).rest, d);
    }
  }

  lemma {:induction false} SuffixNodes(g: Forest, f: Forest)
    requires IsSuffix(g, f)
    ensures Nodes(g) <= Nodes(f) && (Separated(f) ==> Separated(g))
  {
    if g != f { SuffixNodes(g, f.rest); }
  }

  /** Decisions about other entries, or about entries further on, do not matter. */
  ghost predicate Elsewhere(e: Decisions, f: Forest, stop: Forest) {
    forall x :: x in e.yes ==> x.1 !in Nodes(f) || x.1 in Nodes(stop)
  }

  lemma {:induction false} TreeGrows(f: Forest, d: Decisions, e: Decisions)
    requires f.Cons? && Separated(f) && Elsewhere(e, f, Tree(f, d).rest)
    ensures Tree(f, Both(d, e)) == Tree(f, d)
    ensures TreeDecided(f, d) ==> TreeDecided(f, Both(d, e))
    decreases Count(f), 0
  {
    if f.kids.Cons? {
      EndIsMet(f.kids, d);
      RowGrows(f.kids, Nil, d, e);
    } else if f.m.sym.Some? {
      StopIsMet(f.m, f.rest, d);
      SuffixNodes(Stop(f.m, f.rest, d), f.rest);
      StopGrows(f.m, f.rest, d, e);
      RowGrows(f.rest, Stop(f.m, f.rest, d), d, e);
    }
  }

  lemma {:induction false} StopGrows(p: Menu, f: Forest, d: Decisions, e: Decisions)
    requires Separated(f) && Elsewhere(e, f, Stop(p, f, d)) && forall x :: x in e.yes ==> x.1 != p
    ensures Stop(p, f, Both(d, e)) == Stop(p, f, d)
    decreases Count(f), 1
  {
    if f.Cons? && (f.m, p) in d.yes {
      var rest := Tree(f, d).rest;
      SuffixNodes(rest, f.rest);
      SuffixNodes(Stop(p, rest, d), rest);
      TreeGrows(f, d, e);
      StopGrows(p, rest, d, e);
    }
  }

  lemma {:induction false} RowGrows(f: Forest, stop: Forest, d: Decisions, e: Decisions)
    requires Separated(f) && Meets(f, stop, d) && Elsewhere(e, f, stop)
    ensures RowTo(f, stop, Both(d, e)) == RowTo(f, stop, d) && Meets(f, stop, Both(d, e))
    ensures RowDecided(f, stop, d) ==> RowDecided(f, stop, Both(d, e))
    decreases Count(f), 1
  {
    if f != stop {
      var rest := Tree(f, d).rest;
      MeetsSuffix(rest, stop, d);
      SuffixNodes(rest, f.rest);
      SuffixNodes(stop, rest);
      TreeGrows(f, d, e);
      RowGrows(rest, stop, d, e);
    }
  }

  lemma {:induction false} ReachGrows(p: Menu, f: Forest, left: Forest, d: Decisions, e: Decisions)
    requires Separated(f) && Reaches(p, f, left, d) && Elsewhere(e, f, left)
    ensures Reaches(p, f, left, Both(d, e)) && Meets(f, left, d)
    decreases Count(f)
  {
    if f != left {
      var rest := Tree(f, d).rest;
      SuffixNodes(rest, f.rest);
      ReachIsMeeting(p, rest, left, d);
      MeetsSuffix(rest, left, d);
      SuffixNodes(left, rest);
      TreeGrows(f, d, e);
      ReachGrows(p, rest, left, d, e);
    }
  }

  lemma {:induction false} ReachIsMeeting(p: Menu, f: Forest, left: Forest, d: Decisions)
    requires Reaches(p, f, left, d)
    ensures Meets(f, left, d)
    decreases Count(f)
  {
    if f != left { ReachIsMeeting(p, Tree(f, d).rest, left, d); }
  }

  /** One more entry of the row finished. */
  lemma {:induction false} RowExtends(f: Forest, left: Forest, d: Decisions)
    requires left.Cons? && Meets(f, left, d)
    ensures
      var g := Tree(left, d);
      && RowTo(f, g.rest, d) == Append(RowTo(f, left, d), Cons(g.m, g.kids, Nil)) && Meets(f, g.rest, d)
      && (RowDecided(f, left, d) && TreeDecided(left, d) ==> RowDecided(f, g.rest, d))
    decreases Count(f)
  {
    MeetsSuffix(f, left, d);
    if f != left { RowExtends(Tree(f, d).rest, left, d); }
  }

  lemma {:induction false} ReachExtends(p: Menu, f: Forest, left: Forest, d: Decisions)
    requires left.Cons? && Reaches(p, f, left, d) && (left.m, p) in d.yes
    ensures Reaches(p, f, Tree(left, d).rest, d)
    decreases Count(f)
  {
    if f != left { ReachExtends(p, Tree(f, d).rest, left, d); }
  }

  lemma {:induction false} ReachedStop(p: Menu, f: Forest, left: Forest, d: Decisions)
    requires Reaches(p, f, left, d) && (left.Cons? ==> (left.m, p) !in d.yes)
    ensures Stop(p, f, d) == left
    decreases Count(f)
  {
    if f != left { ReachedStop(p, Tree(f, d).rest, left, d); }
  }

  // ---------- What the decisions rest on ----------

  ghost function Takers(d: Decisions): set<Menu> {
    set x | x in d.yes + d.no :: x.1
  }

  ghost function Moved(d: Decisions): set<Menu> {
    set x | x in d.yes :: x.0
  }

  ghost function Refused(d: Decisions): set<Menu> {
    set x | x in d.no :: x.0
  }

  /** Every entry that moves belongs under the entry it moves under; every entry
      that was turned down stays out. */
  ghost predicate Right(d: Decisions)
    reads Takers(d)`vis, Moved(d)`dep, Moved(d)`vis, Refused(d)`dep, Refused(d)`vis
  {
    && (forall x :: x in d.yes ==>
          (x.1 in Takers(d) && x.0 in Moved(d) && x.1.sym.Some?
           && BelongsUnder(if x.0.hasPrompt then x.0.vis else x.0.dep, x.1.sym.value, if x.1.hasPrompt then x.1.vis else None)))
    && (forall x :: x in d.no ==>
          (x.1 in Takers(d) && x.0 in Refused(d) && x.1.sym.Some?
           && !BelongsUnder(if x.0.hasPrompt then x.0.vis else x.0.dep, x.1.sym.value, if x.1.hasPrompt then x.1.vis else None)))
  }

  lemma RightBoth(d: Decisions, e: Decisions)
    requires Right(d) && Right(e)
    ensures Right(Both(d, e))
  {
    hide BelongsUnder;
  }

  lemma RightOne(e: Menu, p: Menu, moves: bool)
    requires p.sym.Some?
    requires moves <==> BelongsUnder(EntryDep(e), p.sym.value, PromptCondition(p))
    ensures Right(One(e, p, moves))
  {
    hide BelongsUnder;
  }

  ghost function One(e: Menu, p: Menu, moves: bool): Decisions {
    if moves then Decisions({(e, p)}, {}) else Decisions({}, {(e, p)})
  }

  const NO_DECISIONS := Decisions({}, {})

  /** The decisions concern entries of `whole` before `rest`, and perhaps the
      entries of the row `rest` itself, which were turned down. */
  ghost predicate Scope(d: Decisions, whole: set<Menu>, rest: Forest) {
    && Takers(d) <= whole - Nodes(rest) && Moved(d) <= whole - Nodes(rest)
    && Refused(d) <= whole && Refused(d) !! Nodes(rest) - Heads(rest)
  }

  lemma ScopeBoth(d: Decisions, e: Decisions, whole: set<Menu>, part: set<Menu>, mid: Forest, rest: Forest)
    requires Scope(d, whole, mid) && Scope(e, part, rest) && part <= whole
    requires IsSuffix(rest, mid) && Separated(mid)
    ensures Scope(Both(d, e), whole, rest)
  {
    SuffixHeads(rest, mid);
    assert Takers(Both(d, e)) == Takers(d) + Takers(e);
    assert Moved(Both(d, e)) == Moved(d) + Moved(e);
    assert Refused(Both(d, e)) == Refused(d) + Refused(e);
  }

  /** The row `f` up to `todo`, finished according to the decisions. */
  ghost predicate Rowed(whole: set<Menu>, f: Forest, result: Forest, todo: Forest, d: Decisions) {
    && Meets(f, todo, d) && result == RowTo(f, todo, d) && RowDecided(f, todo, d) && Scope(d, whole, todo)
  }

  lemma RowedNothing(whole: set<Menu>, f: Forest)
    ensures Rowed(whole, f, Nil, f, NO_DECISIONS)
  {
  }

  /** The next entry is finished according to decisions of its own. */
  lemma RowedMore(whole: set<Menu>, part: set<Menu>, f: Forest, result: Forest, todo: Forest, d: Decisions, e: Decisions)
    requires Separated(f) && Rowed(whole, f, result, todo, d) && todo.Cons? && part <= whole && Nodes(f) <= whole
    requires TreeDecided(todo, e) && Scope(e, part, Tree(todo, e).rest) && part * (Nodes(f) - Nodes(todo)) == {}
    ensures
      var g := Tree(todo, e);
      && Rowed(whole, f, Append(result, Cons(g.m, g.kids, Nil)), g.rest, Both(d, e)) && Tree(todo, Both(d, e)) == g
      && Meets(f, todo, Both(d, e))
  {
    hide Tree, RowTo, Meets, TreeDecided, RowDecided, Append;
    var g := Tree(todo, e);
    MeetsSuffix(f, todo, d);
    SuffixNodes(todo, f);
    SuffixNodes(g.rest, todo.rest);
    assert IsSuffix(g.rest, todo);
    ScopeElsewhere(e, part, g.rest, f, todo);
    RowGrows(f, todo, d, e);
    assert Elsewhere(d, todo, g.rest) by {
      forall x | x in d.yes ensures x.1 !in Nodes(todo) {
        assert x.1 in Takers(d);
      }
    }
    TreeGrows(todo, e, d);
    assert Both(e, d) == Both(d, e);
    RowExtends(f, todo, Both(d, e));
    ScopeBoth(d, e, whole, part, todo, g.rest);
  }

  /** The siblings of `p` before `left` have moved under it. */
  ghost predicate Collected(p: Menu, f: Forest, moved: Forest, left: Forest, d: Decisions) {
    Rowed({p} + Nodes(f), f, moved, left, d) && Reaches(p, f, left, d)
  }

  /** The decision to move the first entry added to those made in finishing it. */
  lemma TakenFirst(p: Menu, left: Forest, e: Decisions)
    requires Separated(left) && p !in Nodes(left) && left.Cons?
    requires TreeDecided(left, e) && Scope(e, Nodes(left), Tree(left, e).rest)
    ensures
      var e1 := Both(e, One(left.m, p, true));
      && Tree(left, e1) == Tree(left, e) && TreeDecided(left, e1)
      && Scope(e1, {p} + Nodes(left), Tree(left, e).rest) && (left.m, p) in e1.yes
  {
    hide Tree, TreeDecided;
    var one, rest := One(left.m, p, true), Tree(left, e).rest;
    var e1 := Both(e, one);
    SuffixNodes(rest, left.rest);
    assert left.m !in Nodes(rest) && p !in Nodes(rest);
    TreeGrows(left, e, one);
    assert Takers(e1) == Takers(e) + {p};
    assert Moved(e1) == Moved(e) + {left.m};
    assert Refused(e1) == Refused(e);
  }

  /** One more sibling moves, finished according to decisions of its own. */
  lemma CollectedMore(p: Menu, f: Forest, moved: Forest, left: Forest, d: Decisions, e: Decisions)
    requires Separated(f) && p !in Nodes(f) && Collected(p, f, moved, left, d) && left.Cons?
    requires TreeDecided(left, e) && Scope(e, {p} + Nodes(left), Tree(left, e).rest) && (left.m, p) in e.yes
    ensures
      var g := Tree(left, e);
      Collected(p, f, Append(moved, Cons(g.m, g.kids, Nil)), g.rest, Both(d, e))
  {
    hide Tree, RowTo, Meets, TreeDecided, RowDecided, Append, Reaches, Scope;
    MeetsSuffix(f, left, d);
    SuffixNodes(left, f);
    RowedMore({p} + Nodes(f), {p} + Nodes(left), f, moved, left, d, e);
    ScopeElsewhere(e, {p} + Nodes(left), Tree(left, e).rest, f, left);
    ReachGrows(p, f, left, d, e);
    ReachExtends(p, f, left, Both(d, e));
  }

  lemma ScopeElsewhere(e: Decisions, part: set<Menu>, rest: Forest, f: Forest, left: Forest)
    requires Scope(e, part, rest) && part * (Nodes(f) - Nodes(left)) == {}
    ensures Elsewhere(e, f, left)
  {
    forall x | x in e.yes ensures x.1 !in Nodes(f) || x.1 in Nodes(left) {
      assert x.1 in Takers(e);
    }
  }

  /** The sibling that ends the run is turned down. */
  lemma CollectedAll(p: Menu, f: Forest, moved: Forest, left: Forest, d: Decisions)
    requires Separated(f) && p !in Nodes(f) && Collected(p, f, moved, left, d)
    ensures
      var d1 := if left.Cons? then Both(d, One(left.m, p, false)) else d;
      && left == Stop(p, f, d1) && moved == RowTo(f, left, d1) && RowDecided(f, left, d1)
      && Scope(d1, {p} + Nodes(f), left) && (left.Cons? ==> (left.m, p) in d1.no)
  {
    hide Tree, RowTo, Meets, RowDecided, Reaches, Stop;
    if left.Cons? {
      assert (left.m, p) !in d.yes by {
        assert left.m !in Moved(d);
      }
      var one := One(left.m, p, false);
      MeetsSuffix(f, left, d);
      SuffixNodes(left, f);
      RowGrows(f, left, d, one);
      ReachedStop(p, f, left, d);
      StopGrows(p, f, d, one);
      assert Takers(Both(d, one)) == Takers(d) + {p};
      assert Moved(Both(d, one)) == Moved(d);
      assert Refused(Both(d, one)) == Refused(d) + {left.m};
    } else {
      ReachedStop(p, f, left, d);
    }
  }

  lemma DecisionsAllocated(d: Decisions)
    ensures forall m :: m in Takers(d) ==> allocated(m)
    ensures forall m :: m in Moved(d) ==> allocated(m)
    ensures forall m :: m in Refused(d) ==> allocated(m)
  {
  }

  ghost function LastOf(f: Forest): (m: Menu)
    requires f.Cons?
    ensures m in Nodes(f)
  {
    if f.rest.Cons? then LastOf(f.rest) else f.m
  }

  ghost function AllButLast(f: Forest): Forest
    requires f.Cons?
  {
    if f.rest.Cons? then Cons(f.m, f.kids, AllButLast(f.rest)) else Nil
  }

  ghost function LastKids(f: Forest): Forest
    requires f.Cons?
  {
    if f.rest.Cons? then LastKids(f.rest) else f.kids
  }

  lemma {:induction false} LastOfAppend(f: Forest, m: Menu, k: Forest)
    ensures Append(f, Cons(m, k, Nil)).Cons? && LastOf(Append(f, Cons(m, k, Nil))) == m
  {
    if f.Cons? { LastOfAppend(f.rest, m, k); }
  }

  lemma {:induction false} SplitLast(f: Forest, first: Menu?, parent: Menu?, tail: Menu?)
    requires f.Cons? && Chain(f, first, parent, tail)
    ensures f == Append(AllButLast(f), Cons(LastOf(f), LastKids(f), Nil))
    ensures Chain(AllButLast(f), first, parent, LastOf(f))
    ensures LastOf(f).next == tail && LastOf(f).parent == parent
    ensures Chain(LastKids(f), LastOf(f).list, LastOf(f), null)
  {
    if f.rest.Cons? { SplitLast(f.rest, f.m.next, parent, tail); }
  }

  /** Hangs the moved row below `p` and cuts it off from the rest. */
  method HangBelow(p: Menu, last: Menu, ghost moved: Forest, ghost rest: Forest, ghost par: Menu?)
    requires moved.Cons? && last == LastOf(moved) && Chain(moved, p.next, p, last.next)
    requires Chain(rest, last.next, par, null)
    requires p !in Nodes(moved) && p !in Nodes(rest) && Nodes(moved) !! Nodes(rest) && Separated(moved)
    modifies p`list, p`next, last`next
    ensures Chain(moved, p.list, p, null) && Chain(rest, p.next, par, null)
  {
    SplitLast(moved, p.next, p, last.next);
    ghost var init, lk := AllButLast(moved), LastKids(moved);
    assert last !in Nodes(init) && last !in Nodes(lk) && Nodes(init) <= Nodes(moved) && Nodes(lk) <= Nodes(moved) by {
      AppendSeparated(init, Cons(last, lk, Nil));
      AppendFacts(init, Cons(last, lk, Nil));
    }
    CutBehind(p, last, init, lk, rest, par);
    ChainAppend(init, Cons(last, lk, Nil), p.list, last, p, null);
  }

  /** The pointer writes of the move. */
  method CutBehind(p: Menu, last: Menu, ghost init: Forest, ghost lk: Forest, ghost rest: Forest, ghost par: Menu?)
    requires p != last && p !in Nodes(init) && p !in Nodes(lk) && p !in Nodes(rest)
    requires last !in Nodes(init) && last !in Nodes(lk) && last !in Nodes(rest)
    requires Chain(init, p.next, p, last) && last.parent == p && Chain(lk, last.list, last, null)
    requires Chain(rest, last.next, par, null)
    modifies p`list, p`next, last`next
    ensures Chain(init, p.list, p, last) && Chain(Cons(last, lk, Nil), last, p, null)
    ensures Chain(rest, p.next, par, null)
  {
    p.list := p.next;
    p.next := last.next;
    last.next := null;
  }

  /** The row `kids` taken apart: `result` is finished, `todo` is not. */
  ghost predicate Ordered(kids: Forest, result: Forest, todo: Forest) {
    && Separated(result) && Separated(todo) && Nodes(result) !! Nodes(todo)
    && Nodes(result) + Nodes(todo) == Nodes(kids)
    && Preorder(result) + Preorder(todo) == Preorder(kids)
    && KidsFlat(result) && IsSuffix(todo, kids)
  }

  lemma OrderedNext(kids: Forest, result: Forest, todo: Forest, g: Forest)
    requires Ordered(kids, result, todo) && todo.Cons? && g.Cons? && g.m == todo.m && Separated(g)
    requires Preorder(g) == Preorder(todo) && Nodes(g) == Nodes(todo) && AllFlat(g.kids) && IsSuffix(g.rest, todo.rest)
    ensures Ordered(kids, Append(result, Cons(g.m, g.kids, Nil)), g.rest) && Count(g.rest) < Count(todo)
  {
    PreorderNodes(g);
    PreorderNodes(todo);
    HandOverOrder(result, g);
    SuffixRest(todo, kids);
    SuffixTrans(g.rest, todo.rest, kids);
  }

  lemma OrderedFacts(kids: Forest, result: Forest, todo: Forest)
    requires Ordered(kids, result, todo)
    ensures Nodes(result) !! Nodes(todo) && Nodes(result) <= Nodes(kids) && Nodes(todo) <= Nodes(kids)
    ensures Separated(result) && Separated(todo) && IsSuffix(todo, kids)
    ensures Nodes(result) + Nodes(todo) == Nodes(kids) && KidsFlat(result)
    ensures Preorder(result) + Preorder(todo) == Preorder(kids)
  {
  }

  method Adopt(p: Menu, menu: Menu, ghost moved: Forest, ghost g: Forest, ghost par: Menu?)
    requires g.Cons? && g.m == menu && Separated(g) && Nodes(moved) !! Nodes(g)
    requires Chain(moved, p.next, p, menu) && Chain(g, menu, par, null)
    modifies menu`parent
    ensures Chain(Append(moved, Cons(menu, g.kids, Nil)), p.next, p, menu.next)
    ensures Chain(g.rest, menu.next, par, null)
  {
    menu.parent := p;
    assert Chain(moved, p.next, p, menu);
    assert Chain(g.rest, menu.next, par, null) && Chain(g.kids, menu.list, menu, null);
    ChainAppend(moved, Cons(menu, g.kids, Nil), p.next, menu, p, menu.next);
  }

  /** Finalizes the next entry and takes it in at the end of the moved row. */
  method TakeIn(p: Menu, menu: Menu, modules: Sym, count: Counter, ghost moved: Forest, ghost left: Forest,
                ghost rest: Forest, ghost par: Menu?, ghost d: Record)
    returns (ghost moved': Forest, ghost left': Forest, ghost done: Record, ghost d': Record, ghost c: Decisions)
    requires left.Cons? && left.m == menu && Chain(left, menu, par, null)
    requires Chain(moved, p.next, p, menu) && Ordered(rest, moved, left) && p !in Nodes(rest)
    requires Matches(d, left) && KidsStill(d)
    modifies Nodes(left)`next, Nodes(left)`list, Nodes(left)`parent
    modifies (Nodes(left) - Heads(left))`dep, (Nodes(left) - Heads(left))`vis, count
    ensures Chain(moved', p.next, p, menu.next) && Chain(left', menu.next, par, null)
    ensures moved'.Cons? && LastOf(moved') == menu
    ensures var g := Tree(left, c); moved' == Append(moved, Cons(g.m, g.kids, Nil)) && left' == g.rest
    ensures TreeDecided(left, c) && Scope(c, Nodes(left), left') && Right(c)
    ensures Ordered(rest, moved', left') && Count(left') < Count(left)
    ensures Step(d, done, d', left, left', modules)
    ensures count.n == old(count.n)
    decreases Count(left), 3
  {
    hide Chain, Append, Separated, AllFlat, KidsFlat, Preorder, IsSuffix, LastOf, Step, Ordered, Tree, TreeDecided, Scope, Right;
    OrderedFacts(rest, moved, left);
    NodesAllocated(moved);
    HeadsAreNodes(moved);
    HeadsAreNodes(left);
    ghost var g;
    g, done, d', c := Finalize(menu, modules, count, left, par, d);
    OrderedNext(rest, moved, left, g);
    RecordedAllocated(done);
    RecordedAllocated(d');
    DecisionsAllocated(c);
    Adopt(p, menu, moved, g, par);
    LastOfAppend(moved, menu, g.kids);
    moved', left' := Append(moved, Cons(menu, g.kids, Nil)), g.rest;
  }

  /** Of the row `f`, recorded as `d`, the entries in `done` are finished and
      those in `d'`, which are the row `g`, are as they were. */
  ghost predicate Step(d: Record, done: Record, d': Record, f: Forest, g: Forest, modules: Sym)
    reads Recorded(done)`dep, Recorded(done)`vis, Recorded(d')`dep, Recorded(d')`vis
  {
    && d == Join(done, d') && Matches(d', g) && KidsStill(d') && BelowUpdated(done, modules)
    && Recorded(done) + Nodes(g) == Nodes(f) && Recorded(done) !! Nodes(g)
  }

  lemma StepNothing(d: Record, f: Forest, modules: Sym)
    requires Matches(d, f) && KidsStill(d)
    ensures Step(d, Nothing, d, f, f, modules)
  {
  }

  /** What is done stays done when the rest goes on. */
  lemma StepMore(d: Record, done1: Record, d1: Record, done2: Record, d2: Record, f: Forest, g: Forest, h: Forest, modules: Sym)
    requires d == Join(done1, d1) && BelowUpdated(done1, modules)
    requires Recorded(done1) + Nodes(g) == Nodes(f) && Recorded(done1) !! Nodes(g)
    requires Step(d1, done2, d2, g, h, modules)
    ensures Step(d, Join(done1, done2), d2, f, h, modules)
  {
    JoinFacts(done1, done2, None, modules);
    JoinAssoc(done1, done2, d2);
  }

  /** The next sibling of `p`, which belongs under it. */
  method TakeNext(p: Menu, menu: Menu, modules: Sym, count: Counter, ghost moved: Forest, ghost left: Forest,
                  ghost rest: Forest, ghost par: Menu?, s: Sym, ghost d: Record, ghost done: Record, ghost d0: Record, ghost c: Decisions)
    returns (ghost moved': Forest, ghost left': Forest, ghost done': Record, ghost d': Record, ghost c': Decisions)
    requires p.sym == Some(s) && BelongsUnder(EntryDep(menu), s, PromptCondition(p))
    requires left.Cons? && left.m == menu && Chain(left, menu, par, null) && Chain(moved, p.next, p, menu)
    requires Ordered(rest, moved, left) && Separated(rest) && p !in Nodes(rest)
    requires Collected(p, rest, moved, left, c) && Right(c)
    requires Step(d, done, d0, rest, left, modules)
    modifies Nodes(left)`next, Nodes(left)`list, Nodes(left)`parent
    modifies (Nodes(left) - Heads(left))`dep, (Nodes(left) - Heads(left))`vis, count
    ensures Chain(moved', p.next, p, menu.next) && Chain(left', menu.next, par, null)
    ensures Ordered(rest, moved', left') && Collected(p, rest, moved', left', c') && Right(c')
    ensures Step(d, done', d', rest, left', modules)
    ensures moved'.Cons? && LastOf(moved') == menu && Count(left') < Count(left)
    ensures count.n == old(count.n)
    decreases Count(left), 4
  {
    hide Append, Step, Separated, Ordered, LastOf, Chain, BelongsUnder, KidsStill, BelowUpdated;
    hide Nodes, Heads, Join, Matches, Collected, Tree, TreeDecided, Scope, Right;
    OrderedFacts(rest, moved, left);
    FirstHead(left);
    StepEnds(d, done, d0, rest, left, modules);
    RecordedAllocated(done);
    CollectedBefore(p, rest, moved, left, c);
    DecisionsAllocated(c);
    ghost var done1, c1;
    moved', left', done1, d', c1 := TakeIn(p, menu, modules, count, moved, left, rest, par, d0);
    StepMore(d, done, d0, done1, d', rest, left, left', modules);
    RightOne(menu, p, true);
    RightBoth(c1, One(menu, p, true));
    TakenFirst(p, left, c1);
    c1 := Both(c1, One(menu, p, true));
    CollectedMore(p, rest, moved, left, c, c1);
    RightBoth(c, c1);
    done', c' := Join(done, done1), Both(c, c1);
  }

  /** The next sibling of `p`, if it belongs under it. */
  method CollectNext(p: Menu, menu: Menu, base: Expr, modules: Sym, count: Counter, ghost moved: Forest, ghost left: Forest,
                     ghost rest: Forest, ghost par: Menu?, s: Sym, ghost d: Record, ghost done: Record, ghost d0: Record, ghost c: Decisions)
    returns (b: bool, ghost moved': Forest, ghost left': Forest, ghost done': Record, ghost d': Record, ghost c': Decisions)
    requires p.sym == Some(s) && base == TestOf(PromptCondition(p))
    requires Chain(left, menu, par, null) && Chain(moved, p.next, p, menu)
    requires Ordered(rest, moved, left) && Separated(rest) && p !in Nodes(rest)
    requires Collected(p, rest, moved, left, c) && Right(c)
    requires Step(d, done, d0, rest, left, modules)
    modifies Nodes(left)`next, Nodes(left)`list, Nodes(left)`parent
    modifies (Nodes(left) - Heads(left))`dep, (Nodes(left) - Heads(left))`vis, count
    ensures var menu' := if b then menu.next else menu; Chain(moved', p.next, p, menu') && Chain(left', menu', par, null)
    ensures Ordered(rest, moved', left') && Collected(p, rest, moved', left', c') && Right(c')
    ensures Step(d, done', d', rest, left', modules)
    ensures b ==> moved'.Cons? && LastOf(moved') == menu && Count(left') < Count(left)
    ensures !b ==> moved' == moved && left' == left && left.Cons? && !BelongsUnder(EntryDep(left.m), s, PromptCondition(p))
    ensures count.n == old(count.n)
    decreases Count(left), 5
  {
    hide Append, Step, Separated, Ordered, LastOf, Chain, BelongsUnder, TestOf, Collected, Right;
    moved', left', done', d', c' := moved, left, done, d0, c;
    NodesAllocated(left);
    NodesAllocated(moved);
    RecordedAllocated(done);
    RecordedAllocated(d0);
    DecisionsAllocated(c);
    ChainFirst(left, menu, par);
    b := MovesUnder(menu, s, base, PromptCondition(p), count);
    if b {
      moved', left', done', d', c' := TakeNext(p, menu, modules, count, moved, left, rest, par, s, d, done, d0, c);
    }
  }

  lemma CollectedBefore(p: Menu, f: Forest, moved: Forest, left: Forest, d: Decisions)
    requires Collected(p, f, moved, left, d)
    ensures Takers(d) !! Nodes(left) && Moved(d) !! Nodes(left) && Refused(d) !! Nodes(left) - Heads(left)
  {
  }

  lemma FirstHead(f: Forest)
    requires f.Cons?
    ensures f.m in Heads(f)
  {
  }

  /** Walks over the later siblings of `p` as long as they belong under it, and
      reparents them; they stay linked where they are. */
  method CollectSubmenu(p: Menu, modules: Sym, count: Counter, ghost rest: Forest, ghost par: Menu?, ghost d: Record)
    returns (last: Menu?, menu: Menu?, ghost moved: Forest, ghost left: Forest, ghost done: Record, ghost d': Record, ghost c: Decisions)
    requires p.list == null && p.sym.Some?
    requires p !in Nodes(rest) && Separated(rest) && Chain(rest, p.next, par, null)
    requires Matches(d, rest) && KidsStill(d)
    modifies Nodes(rest)`next, Nodes(rest)`list, Nodes(rest)`parent
    modifies (Nodes(rest) - Heads(rest))`dep, (Nodes(rest) - Heads(rest))`vis, count
    ensures Chain(moved, p.next, p, menu) && Chain(left, menu, par, null)
    ensures last == null ==> moved == Nil && menu == p.next
    ensures last != null ==> moved.Cons? && last == LastOf(moved) && menu == last.next
    ensures Ordered(rest, moved, left) && Collected(p, rest, moved, left, c) && Right(c)
    ensures left.Cons? ==> !BelongsUnder(EntryDep(left.m), p.sym.value, PromptCondition(p))
    ensures Step(d, done, d', rest, left, modules)
    ensures count.n == old(count.n)
    decreases Count(rest), 6
  {
    hide Append, Step, Separated, Ordered, LastOf, Chain, BelongsUnder, TestOf, Collected, Right;
    NodesAllocated(rest);
    RecordedAllocated(d);
    moved, left, done, d', c := Nil, rest, Nothing, d, NO_DECISIONS;
    StepNothing(d, rest, modules);
    var s := p.sym.value;
    var base := NonzeroTest(PromptCondition(p), count);
    last := null;
    menu := p.next;
    StartCollecting(rest, p);
    while menu != null
      invariant Chain(moved, p.next, p, menu) && Chain(left, menu, par, null)
      invariant last == null ==> moved == Nil && menu == p.next
      invariant last != null ==> moved.Cons? && last == LastOf(moved) && last.next == menu
      invariant Ordered(rest, moved, left) && Count(left) <= Count(rest)
      invariant Collected(p, rest, moved, left, c) && Right(c)
      invariant Step(d, done, d', rest, left, modules)
      invariant count.n == old(count.n)
      decreases Count(left)
    {
      OrderedFacts(rest, moved, left);
      SuffixHeads(left, rest);
      var b;
      b, moved, left, done, d', c := CollectNext(p, menu, base, modules, count, moved, left, rest, par, s, d, done, d', c);
      if !b {
        break;
      }
      last := menu;
      menu := menu.next;
    }
    if menu == null { NoEntry(left, par); }
  }

  lemma NoEntry(f: Forest, parent: Menu?)
    requires Chain(f, null, parent, null)
    ensures f == Nil
  {
  }

  lemma StartCollecting(rest: Forest, p: Menu)
    requires Separated(rest)
    ensures Chain(Nil, p.next, p, p.next) && Ordered(rest, Nil, rest) && Collected(p, rest, Nil, rest, NO_DECISIONS) && Right(NO_DECISIONS)
  {
    RowedNothing({p} + Nodes(rest), rest);
  }

  lemma StepEnds(d: Record, done: Record, d': Record, f: Forest, g: Forest, modules: Sym)
    requires Step(d, done, d', f, g, modules)
    ensures d == Join(done, d') && BelowUpdated(done, modules)
    ensures Matches(d', g) && KidsStill(d') && Recorded(d') == Nodes(g)
    ensures Recorded(done) + Nodes(g) == Nodes(f) && Recorded(done) !! Nodes(g)
  {
    MatchingNodes(d', g);
  }

  /** Turns the later siblings of `p` that belong under it into its children, up
      to the first that does not. */
  method AutoSubmenu(p: Menu, modules: Sym, count: Counter, ghost rest: Forest, ghost par: Menu?, ghost d: Record)
    returns (ghost moved: Forest, ghost left: Forest, ghost done: Record, ghost d': Record, ghost c: Decisions)
    requires p.list == null && p.sym.Some?
    requires p !in Nodes(rest) && Separated(rest) && Chain(rest, p.next, par, null)
    requires Matches(d, rest) && KidsStill(d)
    modifies p`next, p`list, Nodes(rest)`next, Nodes(rest)`list, Nodes(rest)`parent
    modifies (Nodes(rest) - Heads(rest))`dep, (Nodes(rest) - Heads(rest))`vis, count
    ensures Chain(moved, p.list, p, null) && Chain(left, p.next, par, null)
    ensures Ordered(rest, moved, left)
    ensures left == Stop(p, rest, c) && moved == RowTo(rest, left, c) && RowDecided(rest, left, c)
    ensures left.Cons? ==> (left.m, p) in c.no
    ensures Scope(c, {p} + Nodes(rest), left) && Right(c)
    ensures Step(d, done, d', rest, left, modules)
    ensures count.n == old(count.n)
    decreases Count(rest), 7
  {
    hide Append, Separated, Ordered, LastOf, Step, Collected, Right, BelongsUnder, Stop, RowTo, RowDecided, Scope;
    hide Nodes, Heads, Matches, KidsStill, IsSuffix;
    var last, menu;
    last, menu, moved, left, done, d', c := CollectSubmenu(p, modules, count, rest, par, d);
    OrderedFacts(rest, moved, left);
    CollectedAll(p, rest, moved, left, c);
    if left.Cons? {
      RightOne(left.m, p, false);
      RightBoth(c, One(left.m, p, false));
      c := Both(c, One(left.m, p, false));
    }
    if last != null {
      NodesAllocated(left);
      NodesAllocated(moved);
      HeadsAreNodes(moved);
      HeadsAreNodes(left);
      RecordedAllocated(done);
      RecordedAllocated(d');
      DecisionsAllocated(c);
      HangBelow(p, last, moved, left, par);
    }
  }

  lemma ConcatAssoc<T>(x: seq<T>, y: seq<T>, z: seq<T>)
    ensures x + y + z == x + (y + z)
  {
  }

  lemma RowOrder(p: Menu, a: Forest, b: Forest, c: Forest, d: Forest)
    requires Preorder(a) + Preorder(b) == Preorder(c) + Preorder(d)
    ensures Preorder(Cons(p, a, b)) == Preorder(Cons(p, c, d))
  {
    ConcatAssoc([p], Preorder(a), Preorder(b));
    ConcatAssoc([p], Preorder(c), Preorder(d));
  }

  /** Below `p` stands what the decisions make of the row from `p` on. */
  ghost predicate Arranged(f: Forest, kids: Forest, rest: Forest, c: Decisions)
    requires f.Cons?
  {
    Tree(f, c) == Cons(f.m, Flattened(kids), rest) && TreeDecided(f, c) && Scope(c, Nodes(f), rest)
  }

  lemma ArrangedKids(f: Forest, kids: Forest, c: Decisions)
    requires f.Cons? && Separated(f) && f.kids.Cons? && Rowed(Nodes(f.kids), f.kids, kids, Nil, c)
    ensures Arranged(f, kids, f.rest, c)
  {
    hide Flattened, RowTo, RowDecided;
    HeadsAreNodes(f.rest);
  }

  lemma ArrangedAuto(f: Forest, moved: Forest, left: Forest, c: Decisions)
    requires f.Cons? && f.kids.Nil? && f.m.sym.Some?
    requires left == Stop(f.m, f.rest, c) && moved == RowTo(f.rest, left, c) && RowDecided(f.rest, left, c)
    requires (left.Cons? ==> (left.m, f.m) in c.no) && Scope(c, {f.m} + Nodes(f.rest), left)
    ensures Arranged(f, moved, left, c)
  {
    hide Flattened, RowTo, RowDecided;
    assert Nodes(f) == {f.m} + Nodes(f.rest);
  }

  lemma ArrangedAlone(f: Forest)
    requires f.Cons? && f.kids.Nil? && f.m.sym.None?
    ensures Arranged(f, Nil, f.rest, NO_DECISIONS) && Right(NO_DECISIONS)
  {
  }

  /** Finalizes the children of `p`, or gives `p` later siblings as children. */
  method FinalizeBelow(p: Menu, modules: Sym, count: Counter, ghost f: Forest, ghost par: Menu?, ghost d: Record)
    returns (ghost kids: Forest, ghost rest: Forest, ghost done: Record, ghost d': Record, ghost c: Decisions)
    requires f.Cons? && f.m == p && Separated(f) && Chain(f, p, par, null)
    requires Matches(d, f) && KidsStill(d)
    modifies Nodes(f)`next, Nodes(f)`list, (Nodes(f) - {p})`parent
    modifies (Nodes(f) - Heads(f))`dep, (Nodes(f) - Heads(f))`vis, count
    ensures Chain(kids, p.list, p, null) && Chain(rest, p.next, par, null)
    ensures Separated(kids) && Separated(rest) && Nodes(kids) !! Nodes(rest)
    ensures Nodes(kids) + Nodes(rest) == Nodes(f) - {p}
    ensures Preorder(kids) + Preorder(rest) == Preorder(f.kids) + Preorder(f.rest)
    ensures KidsFlat(kids) && IsSuffix(rest, f.rest)
    ensures Arranged(f, kids, rest, c) && Right(c)
    ensures Step(d, done, d', f, rest, modules)
    ensures count.n == old(count.n)
    decreases Count(f), 1
  {
    hide Step, Ordered, Separated, Chain, IsSuffix, Preorder, KidsFlat, HeadsUpdated, BelowUpdated;
    hide Arranged, Right, Rowed, Scope, Stop, RowTo, RowDecided;
    kids, rest := f.kids, f.rest;
    FirstFacts(f, p, par);
    NodesAllocated(f);
    HeadsAreNodes(kids);
    HeadsAreNodes(rest);
    MatchingNodes(d.kids, f.kids);
    MatchingNodes(d.rest, f.rest);
    RecordedAllocated(d);
    done, d' := Nothing, d.rest;
    StepNothing(d.rest, f.rest, modules);
    if p.list != null {
      SomeChildren(kids, p);
      kids, c := FinalizeKids(p, modules, count, kids, d.kids);
      ArrangedKids(f, kids, c);
    } else {
      NoChildren(f.kids, d.kids, p, modules);
      if p.sym.Some? {
        kids, rest, done, d', c := AutoSubmenu(p, modules, count, rest, par, d.rest);
        OrderedFacts(f.rest, kids, rest);
        ArrangedAuto(f, kids, rest, c);
      } else {
        c := NO_DECISIONS;
        ArrangedAlone(f);
      }
    }
    StepWithHead(d, done, d', f, rest, modules);
    done := Entry(p, d.dep, d.vis, d.kids, done);
  }

  lemma SomeChildren(kids: Forest, p: Menu)
    requires p.list != null && Chain(kids, p.list, p, null)
    ensures kids.Cons?
  {
  }

  lemma FirstFacts(f: Forest, p: Menu, par: Menu?)
    requires f.Cons? && f.m == p && Separated(f) && Chain(f, p, par, null)
    ensures Chain(f.kids, p.list, p, null) && Chain(f.rest, p.next, par, null)
    ensures Separated(f.kids) && Separated(f.rest) && Nodes(f.kids) !! Nodes(f.rest)
    ensures p !in Nodes(f.kids) && p !in Nodes(f.rest) && IsSuffix(f.rest, f.rest)
  {
  }

  lemma NoChildren(kids: Forest, d: Record, p: Menu, modules: Sym)
    requires Chain(kids, null, p, null) && Matches(d, kids)
    ensures kids == Nil && d == Nothing && KidsFlat(kids) && Preorder(kids) == []
    ensures HeadsUpdated(d, Inherited(p), modules) && BelowUpdated(d, modules)
  {
  }

  /** The children of `p`: first all of them inherit, then each is finalized. */
  method FinalizeKids(p: Menu, modules: Sym, count: Counter, ghost kids: Forest, ghost d: Record)
    returns (ghost result: Forest, ghost c: Decisions)
    requires Separated(kids) && p !in Nodes(kids) && Chain(kids, p.list, p, null)
    requires Matches(d, kids) && Still(d)
    modifies Nodes(kids)`next, Nodes(kids)`list, Nodes(kids)`parent
    modifies Nodes(kids)`dep, Nodes(kids)`vis, count
    ensures Separated(result) && Chain(result, p.list, p, null)
    ensures Preorder(result) == Preorder(kids) && Nodes(result) == Nodes(kids) && KidsFlat(result)
    ensures Rowed(Nodes(kids), kids, result, Nil, c) && Right(c)
    ensures HeadsUpdated(d, Inherited(p), modules) && BelowUpdated(d, modules)
    ensures count.n == old(count.n)
    decreases Count(kids), 5
  {
    hide Rowed, Right;
    hide Separated, Chain, Preorder, KidsFlat, BelowUpdated, HeadsUpdated, Still, KidsStill, ChildUpdated;
    NodesAllocated(kids);
    HeadsAreNodes(kids);
    MatchingNodes(d, kids);
    PropagateToChildren(p, modules, count, kids, d);
    result, c := FinalizeChildren(p, modules, count, kids, d);
  }

  lemma StepWithHead(d: Record, done: Record, d': Record, f: Forest, rest: Forest, modules: Sym)
    requires f.Cons? && Separated(f) && Matches(d, f) && Step(d.rest, done, d', f.rest, rest, modules)
    requires HeadsUpdated(d.kids, Inherited(f.m), modules) && BelowUpdated(d.kids, modules)
    ensures Step(d, Entry(f.m, d.dep, d.vis, d.kids, done), d', f, rest, modules)
  {
    MatchingNodes(d.kids, f.kids);
  }

  /** Restructures everything below `p`, possibly taking later siblings in:
      every entry keeps its place in the order, inherits what it has to, ends up
      below its real parent, and stands where the decisions put it, which rest on
      the dependencies. */
  method Finalize(p: Menu, modules: Sym, count: Counter, ghost f: Forest, ghost par: Menu?, ghost d: Record)
    returns (ghost g: Forest, ghost done: Record, ghost d': Record, ghost c: Decisions)
    requires f.Cons? && f.m == p && Separated(f) && Chain(f, p, par, null)
    requires Matches(d, f) && KidsStill(d)
    modifies Nodes(f)`next, Nodes(f)`list, (Nodes(f) - {p})`parent
    modifies (Nodes(f) - Heads(f))`dep, (Nodes(f) - Heads(f))`vis, count
    ensures g.Cons? && g.m == p && Separated(g) && Chain(g, p, par, null)
    ensures Preorder(g) == Preorder(f) && Nodes(g) == Nodes(f)
    ensures AllFlat(g.kids) && IsSuffix(g.rest, f.rest)
    ensures g == Tree(f, c) && TreeDecided(f, c) && Scope(c, Nodes(f), g.rest) && Right(c)
    ensures Step(d, done, d', f, g.rest, modules)
    ensures count.n == old(count.n)
    decreases Count(f), 2
  {
    hide Append, Preorder, AllFlat, KidsFlat, IsSuffix, Step, Tree, TreeDecided, Scope, Right, Flattened;
    ghost var kids, rest;
    kids, rest, done, d', c := FinalizeBelow(p, modules, count, f, par, d);
    NodesAllocated(f);
    HeadsAreNodes(kids);
    HeadsAreNodes(rest);
    RecordedAllocated(done);
    RecordedAllocated(d');
    DecisionsAllocated(c);
    ghost var flat := FlattenChildren(p, kids);
    g := Cons(p, flat, rest);
    RowOrder(p, flat, rest, f.kids, f.rest);
  }

  method FinalizeNext(p: Menu, menu: Menu, modules: Sym, count: Counter, ghost kids: Forest, ghost result: Forest,
                      ghost todo: Forest, ghost d: Record, ghost done: Record, ghost left: Record, ghost c: Decisions)
    returns (ghost result': Forest, ghost todo': Forest, ghost done': Record, ghost left': Record, ghost c': Decisions)
    requires Chain(result, p.list, p, menu) && Chain(todo, menu, p, null) && p !in Nodes(kids)
    requires Separated(kids) && Ordered(kids, result, todo) && Step(d, done, left, kids, todo, modules)
    requires Rowed(Nodes(kids), kids, result, todo, c) && Right(c)
    modifies Nodes(todo)`next, Nodes(todo)`list, Nodes(todo)`parent
    modifies (Nodes(todo) - Heads(todo))`dep, (Nodes(todo) - Heads(todo))`vis, count
    ensures Chain(result', p.list, p, menu.next) && Chain(todo', menu.next, p, null)
    ensures Ordered(kids, result', todo') && Step(d, done', left', kids, todo', modules)
    ensures Rowed(Nodes(kids), kids, result', todo', c') && Right(c')
    ensures Count(todo') < Count(todo) && count.n == old(count.n)
    decreases Count(todo), 3
  {
    hide Chain, Append, Step, Ordered, Separated, Preorder, AllFlat, KidsFlat, IsSuffix;
    hide Rowed, Right, Tree, TreeDecided, Scope, Nodes, Heads, Join, Matches;
    OrderedFacts(kids, result, todo);
    RowedBefore(Nodes(kids), kids, result, todo, c);
    ChainFirst(todo, menu, p);
    NodesAllocated(result);
    StepEnds(d, done, left, kids, todo, modules);
    RecordedAllocated(done);
    DecisionsAllocated(c);
    ghost var g, done1, c1;
    g, done1, left', c1 := Finalize(menu, modules, count, todo, p, left);
    StepMore(d, done, left, done1, left', kids, todo, g.rest, modules);
    OrderedNext(kids, result, todo, g);
    RowedMore(Nodes(kids), Nodes(todo), kids, result, todo, c, c1);
    RightBoth(c, c1);
    HandOver(result, g, p.list, p, null);
    result', todo', done', c' := Append(result, Cons(menu, g.kids, Nil)), g.rest, Join(done, done1), Both(c, c1);
  }

  lemma RowedBefore(whole: set<Menu>, f: Forest, result: Forest, todo: Forest, d: Decisions)
    requires Rowed(whole, f, result, todo, d)
    ensures Takers(d) !! Nodes(todo) && Moved(d) !! Nodes(todo) && Refused(d) !! Nodes(todo) - Heads(todo)
  {
  }

  method FinalizeChildren(p: Menu, modules: Sym, count: Counter, ghost kids: Forest, ghost d: Record)
    returns (ghost result: Forest, ghost c: Decisions)
    requires p !in Nodes(kids) && Separated(kids) && Chain(kids, p.list, p, null)
    requires Matches(d, kids) && KidsStill(d)
    modifies Nodes(kids)`next, Nodes(kids)`list, Nodes(kids)`parent
    modifies (Nodes(kids) - Heads(kids))`dep, (Nodes(kids) - Heads(kids))`vis, count
    ensures Separated(result) && Chain(result, p.list, p, null)
    ensures Preorder(result) == Preorder(kids) && Nodes(result) == Nodes(kids)
    ensures Rowed(Nodes(kids), kids, result, Nil, c) && Right(c)
    ensures KidsFlat(result) && BelowUpdated(d, modules)
    ensures count.n == old(count.n)
    decreases Count(kids), 4
  {
    hide Append, Step, Ordered, Separated, Chain, Rowed, Right;
    var menu := p.list;
    ghost var todo := kids;
    ghost var done, left := Nothing, d;
    result, c := Nil, NO_DECISIONS;
    StepNothing(d, kids, modules);
    StartOrdered(kids, p);
    while menu != null
      invariant Chain(result, p.list, p, menu) && Chain(todo, menu, p, null)
      invariant Ordered(kids, result, todo) && Count(todo) <= Count(kids)
      invariant Rowed(Nodes(kids), kids, result, todo, c) && Right(c)
      invariant Step(d, done, left, kids, todo, modules)
      invariant count.n == old(count.n)
      decreases Count(todo)
    {
      OrderedFacts(kids, result, todo);
      SuffixHeads(todo, kids);
      result, todo, done, left, c := FinalizeNext(p, menu, modules, count, kids, result, todo, d, done, left, c);
      menu := menu.next;
    }
    NoEntry(todo, p);
    EndOrdered(kids, result);
    AllDone(d, done, left, kids, modules);
  }

  lemma StartOrdered(kids: Forest, p: Menu)
    requires Separated(kids)
    ensures Ordered(kids, Nil, kids) && Chain(Nil, p.list, p, p.list)
    ensures Rowed(Nodes(kids), kids, Nil, kids, NO_DECISIONS) && Right(NO_DECISIONS)
  {
    RowedNothing(Nodes(kids), kids);
  }

  lemma EndOrdered(kids: Forest, result: Forest)
    requires Ordered(kids, result, Nil)
    ensures Separated(result) && Preorder(result) == Preorder(kids) && Nodes(result) == Nodes(kids) && KidsFlat(result)
  {
  }

  lemma AllDone(d: Record, done: Record, left: Record, f: Forest, modules: Sym)
    requires Step(d, done, left, f, Nil, modules)
    ensures BelowUpdated(d, modules)
  {
    JoinAssoc(done, Nothing, Nothing);
  }

  lemma OneHead(root: Menu, kids: Forest)
    ensures Nodes(Cons(root, kids, Nil)) == {root} + Nodes(kids) && Heads(Cons(root, kids, Nil)) == {root}
  {
    assert Heads(Nil) == {} && Nodes(Nil) == {};
  }

  lemma OneRoot(root: Menu, a: Forest, b: Forest)
    requires Preorder(Cons(root, a, Nil)) == Preorder(Cons(root, b, Nil))
    ensures Preorder(a) == Preorder(b)
  {
    var x, y := Preorder(a), Preorder(b);
    assert Preorder(Cons(root, a, Nil)) == [root] + x && Preorder(Cons(root, b, Nil)) == [root] + y;
    assert ([root] + x)[1..] == x && ([root] + y)[1..] == y;
  }

  lemma WholeTree(root: Menu, kids: Forest, c: Decisions)
    requires TreeDecided(Cons(root, kids, Nil), c)
    ensures Tree(Cons(root, kids, Nil), c) == Cons(root, Flattened(RowTo(kids, Nil, c)), Nil)
    ensures RowDecided(kids, Nil, c)
  {
  }

  /** The whole tree: afterwards every entry has taken in what it inherits from
      the entry it was defined under, entries are in the order in which they were
      defined, no entry without a prompt has children, and the tree is the one
      that the decisions make of the one defined: entries that moved belong under
      the symbol they moved under, and each run of them ends at an entry that
      stays out. */
  method FinalizeTree(root: Menu, modules: Sym, count: Counter, ghost kids: Forest) returns (ghost result: Forest, ghost c: Decisions)
    requires Separated(kids) && root !in Nodes(kids) && Chain(kids, root.list, root, null)
    requires root.next == null && root.parent == null
    modifies root`next, root`list, Nodes(kids)`next, Nodes(kids)`list, Nodes(kids)`parent
    modifies Nodes(kids)`dep, Nodes(kids)`vis, count
    ensures Separated(result) && Chain(result, root.list, root, null) && AllFlat(result)
    ensures Preorder(result) == Preorder(kids)
    ensures result == Flattened(RowTo(kids, Nil, c)) && RowDecided(kids, Nil, c) && Right(c)
    ensures HeadsUpdated(old(RecordOf(kids)), Inherited(root), modules) && BelowUpdated(old(RecordOf(kids)), modules)
    ensures Meant(root, old(RecordOf(kids)), modules)
    ensures count.n == old(count.n)
  {
    hide Step, Preorder, AllFlat, Right, Tree, TreeDecided, RowTo, RowDecided, HeadsUpdated, Meant;
    RecordFacts(kids);
    StillKids(RecordOf(kids));
    ghost var f := Cons(root, kids, Nil);
    ghost var d := Entry(root, root.dep, root.vis, RecordOf(kids), Nothing);
    OneHead(root, kids);
    ghost var g, done, d';
    g, done, d', c := Finalize(root, modules, count, f, null, d);
    WholeTree(root, kids, c);
    assert g.rest == Nil;
    AllDone(d, done, d', f, modules);
    WholeMeaning(root, d.kids, modules);
    result := g.kids;
    OneRoot(root, result, kids);
  }
}
