/** Elimination of duplicate operands, overwriting the operand slots of one
    tree that is walked through two pointers at the same time. */
module Dups {
  import opened Options
  import opened Tristates
  import opened Exprs
  import opened Equality
  import opened Joining
  import opened Transforming
  import opened Operands
  import opened Dedup

  /** The place where an operand hangs. */
  class Slot {
    var e: Expr

    constructor (e: Expr)
      ensures this.e == e
    {
      this.e := e;
    }
  }

  /** The number of simplifications done. */
  class Counter {
    var n: nat

    constructor ()
      ensures n == 0
    {
      n := 0;
    }
  }

  /** The nodes of one operator above the operand slots. A pass never changes
      them, it only overwrites slots. */
  datatype Spine = Leaf(slot: Slot) | Fork(left: Spine, right: Spine)

  ghost function SlotsOf(sp: Spine): set<Slot> {
    match sp
    case Leaf(s) => {s}
    case Fork(l, r) => SlotsOf(l) + SlotsOf(r)
  }

  /** The operand slots from left to right. */
  ghost function Leaves(sp: Spine): (r: seq<Slot>)
    ensures |r| >= 1
    ensures forall i :: 0 <= i < |r| ==> r[i] in SlotsOf(sp)
  {
    match sp
    case Leaf(s) => [s]
    case Fork(l, r) => Leaves(l) + Leaves(r)
  }

  ghost function Height(sp: Spine): nat {
    match sp
    case Leaf(_) => 0
    case Fork(l, r) => 1 + Height(l) + Height(r)
  }

  ghost function Contents(slots: seq<Slot>): (c: seq<Expr>)
    reads slots
    ensures |c| == |slots| && forall i :: 0 <= i < |c| ==> c[i] == slots[i].e
  {
    seq(|slots|, i requires 0 <= i < |slots| reads slots => slots[i].e)
  }

  /** The expression that a spine and its slots stand for. */
  function Assembled(op: BinOp, sp: Spine): Expr
    reads SlotsOf(sp)
  {
    match sp
    case Leaf(s) => s.e
    case Fork(l, r) => Bin(op, Assembled(op, l), Assembled(op, r))
  }

  ghost predicate Distinct(slots: seq<Slot>) {
    forall i, j :: 0 <= i < j < |slots| ==> slots[i] != slots[j]
  }

  /** The slots below `sp` are those of `root` from `lo` to `hi`. */
  ghost predicate Spans(sp: Spine, root: seq<Slot>, lo: nat, hi: nat) {
    lo <= hi <= |root| && root[lo..hi] == Leaves(sp)
  }

  lemma SpansParts(sp: Spine, root: seq<Slot>, lo: nat, hi: nat) returns (mid: nat)
    requires sp.Fork? && Spans(sp, root, lo, hi)
    ensures Spans(sp.left, root, lo, mid) && Spans(sp.right, root, mid, hi)
  {
    var a, b := Leaves(sp.left), Leaves(sp.right);
    mid := lo + |a|;
    assert (a + b)[..|a|] == a && (a + b)[|a|..] == b;
    assert root[lo..mid] == root[lo..hi][..|a|];
    assert root[mid..hi] == root[lo..hi][|a|..];
  }

  lemma SpansSlot(s: Slot, root: seq<Slot>, lo: nat, hi: nat)
    requires Spans(Leaf(s), root, lo, hi)
    ensures hi == lo + 1 && lo < |root| && root[lo] == s
  {
    assert root[lo..hi][0] == s;
  }

  lemma ContentsConcat(a: seq<Slot>, b: seq<Slot>)
    ensures Contents(a + b) == Contents(a) + Contents(b)
  {
    assert forall i :: 0 <= i < |a| ==> (a + b)[i] == a[i];
    assert forall i :: |a| <= i < |a| + |b| ==> (a + b)[i] == b[i - |a|];
  }

  lemma DistinctConcat(a: seq<Slot>, b: seq<Slot>)
    requires Distinct(a) && Distinct(b)
    requires forall i, j :: 0 <= i < |a| && 0 <= j < |b| ==> a[i] != b[j]
    ensures Distinct(a + b)
  {
  }

  /** The spine has the shape of `e`. */
  ghost predicate Shaped(op: BinOp, e: Expr, sp: Spine) {
    if IsOp(op, e) then sp.Fork? && Shaped(op, e.fst, sp.left) && Shaped(op, e.snd, sp.right) else sp.Leaf?
  }

  lemma {:induction false} AssembledIsRebuilt(op: BinOp, e: Expr, sp: Spine)
    requires Shaped(op, e, sp)
    ensures |Leaves(sp)| == |OperandsOf(op, e)|
    ensures Assembled(op, sp) == Rebuilt(op, e, Contents(Leaves(sp)))
  {
    match sp
    case Leaf(s) => assert Leaves(sp)[0] == s;
    case Fork(l, r) =>
      var c := Contents(Leaves(sp));
      AssembledIsRebuilt(op, e.fst, l);
      AssembledIsRebuilt(op, e.snd, r);
      ContentsConcat(Leaves(l), Leaves(r));
      assert c[..|Leaves(l)|] == Contents(Leaves(l));
      assert c[|Leaves(l)|..] == Contents(Leaves(r));
  }

  /** A row of distinct slots that spells out `e`. */
  ghost predicate Exploded(op: BinOp, e: Expr, sp: Spine, row: seq<Slot>)
    reads row
  {
    row == Leaves(sp) && Distinct(row) && Contents(row) == OperandsOf(op, e) && Shaped(op, e, sp)
  }

  lemma ExplodedFork(op: BinOp, e: Expr, l: Spine, a: seq<Slot>, r: Spine, b: seq<Slot>)
    requires IsOp(op, e) && Exploded(op, e.fst, l, a) && Exploded(op, e.snd, r, b)
    requires forall i, j :: 0 <= i < |a| && 0 <= j < |b| ==> a[i] != b[j]
    ensures Exploded(op, e, Fork(l, r), a + b)
  {
    DistinctConcat(a, b);
    ContentsConcat(a, b);
  }

  lemma ExplodedLeaf(op: BinOp, e: Expr, s: Slot)
    requires !IsOp(op, e) && s.e == e
    ensures Exploded(op, e, Leaf(s), [s])
  {
  }

  method Explode(op: BinOp, e: Expr) returns (sp: Spine, ghost row: seq<Slot>)
    ensures fresh(row) && Exploded(op, e, sp, row)
  {
    hide Exploded;
    if IsOp(op, e) {
      var l, a := Explode(op, e.fst);
      var r, b := Explode(op, e.snd);
      ExplodedFork(op, e, l, a, r, b);
      sp, row := Fork(l, r), a + b;
    } else {
      var s := new Slot(e);
      sp, row := Leaf(s), [s];
      ExplodedLeaf(op, e, s);
    }
  }

  /** `d` and `n` are what trying the operands of `c` from `lo1` to `hi1` against
      those from `lo2` to `hi2` gives, with all that this keeps. */
  ghost predicate Passed(op: BinOp, c: seq<Expr>, d: seq<Expr>, n: nat, lo1: nat, hi1: nat, lo2: nat, hi2: nat) {
    && lo1 <= hi1 <= |c| && lo2 <= hi2 <= |c| && (d, n) == TryAll(op, c, lo1, hi1, lo2, lo2, hi2)
    && AreOperands(op, d) && Simplified(op, c, d, n > 0)
    && (n == 0 ==> d == c && Tried(op, c, lo1, hi1, lo2, lo2, hi2))
  }

  lemma PassedRows(op: BinOp, c: seq<Expr>, d: seq<Expr>, n: nat, f: seq<Expr>, k: nat, lo1: nat, mid: nat, hi1: nat, lo2: nat, hi2: nat)
    requires AreOperands(op, c) && Passed(op, c, d, n, lo1, mid, lo2, hi2) && Passed(op, d, f, k, mid, hi1, lo2, hi2)
    ensures Passed(op, c, f, n + k, lo1, hi1, lo2, hi2)
  {
    hide TryAll, Simplified, Tried, AreOperands;
    TryAllRows(op, c, lo1, mid, hi1, lo2, lo2, hi2);
    TryAllFacts(op, c, lo1, hi1, lo2, lo2, hi2);
  }

  lemma PassedColumns(op: BinOp, c: seq<Expr>, d: seq<Expr>, n: nat, f: seq<Expr>, k: nat, i: nat, lo2: nat, mid: nat, hi2: nat)
    requires AreOperands(op, c) && Passed(op, c, d, n, i, i + 1, lo2, mid) && Passed(op, d, f, k, i, i + 1, mid, hi2)
    ensures Passed(op, c, f, n + k, i, i + 1, lo2, hi2)
  {
    hide TryAll, Simplified, Tried, AreOperands;
    TryAllColumns(op, c, i, lo2, lo2, mid, hi2);
    TryAllFacts(op, c, i, i + 1, lo2, lo2, hi2);
  }

  lemma PassedOne(op: BinOp, c: seq<Expr>, d: seq<Expr>, n: nat, i: nat, j: nat)
    requires i < |c| && j < |c| && AreOperands(op, c) && (d, n) == TryAt(op, c, i, j)
    ensures Passed(op, c, d, n, i, i + 1, j, j + 1)
  {
    hide TryAt, TryAll, Simplified, Tried, AreOperands;
    TryAllOne(op, c, i, j);
    TryAllFacts(op, c, i, i + 1, j, j, j + 1);
  }

  lemma PassedShrinks(op: BinOp, c: seq<Expr>, d: seq<Expr>, n: nat, lo1: nat, hi1: nat, lo2: nat, hi2: nat)
    requires Passed(op, c, d, n, lo1, hi1, lo2, hi2)
    ensures AreOperands(op, d) && TotalSize(d) <= TotalSize(c)
  {
  }

  /** One pass over the slots below `sp1` against the slots below `sp2`; both
      are parts of the tree whose slots are `root`, and may be the same part. */
  method EliminateDups1(op: BinOp, sp1: Spine, sp2: Spine, count: Counter,
                        ghost root: seq<Slot>, ghost lo1: nat, ghost hi1: nat, ghost lo2: nat, ghost hi2: nat)
    requires Distinct(root) && AreOperands(op, Contents(root))
    requires Spans(sp1, root, lo1, hi1) && Spans(sp2, root, lo2, hi2)
    modifies root, count
    ensures count.n >= old(count.n)
    ensures Passed(op, old(Contents(root)), Contents(root), count.n - old(count.n), lo1, hi1, lo2, hi2)
    decreases TotalSize(Contents(root)), Height(sp1) + Height(sp2), 2
  {
    hide AreOperands, Passed, TryAt, Spans, Distinct, Leaves;
    ghost var c, n := Contents(root), count.n;
    if sp1.Fork? {
      ghost var mid := SpansParts(sp1, root, lo1, hi1);
      EliminateDups1(op, sp1.left, sp2, count, root, lo1, mid, lo2, hi2);
      ghost var d, k := Contents(root), count.n;
      PassedShrinks(op, c, d, k - n, lo1, mid, lo2, hi2);
      EliminateDups1(op, sp1.right, sp2, count, root, mid, hi1, lo2, hi2);
      PassedRows(op, c, d, k - n, Contents(root), count.n - k, lo1, mid, hi1, lo2, hi2);
    } else if sp2.Fork? {
      ghost var mid := SpansParts(sp2, root, lo2, hi2);
      SpansSlot(sp1.slot, root, lo1, hi1);
      EliminateDups1(op, sp1, sp2.left, count, root, lo1, hi1, lo2, mid);
      ghost var d, k := Contents(root), count.n;
      PassedShrinks(op, c, d, k - n, lo1, hi1, lo2, mid);
      EliminateDups1(op, sp1, sp2.right, count, root, lo1, hi1, mid, hi2);
      PassedColumns(op, c, d, k - n, Contents(root), count.n - k, lo1, lo2, mid, hi2);
    } else {
      SpansSlot(sp1.slot, root, lo1, hi1);
      SpansSlot(sp2.slot, root, lo2, hi2);
      if sp1.slot != sp2.slot {
        TryPair(op, sp1.slot, sp2.slot, count, root, lo1, lo2);
      } else {
        SameSlot(op, c, root, lo1, lo2);
      }
      PassedOne(op, c, Contents(root), count.n - n, lo1, lo2);
    }
  }

  lemma SameSlot(op: BinOp, c: seq<Expr>, root: seq<Slot>, i: nat, j: nat)
    requires Distinct(root) && |c| == |root| && i < |c| && j < |c| && root[i] == root[j]
    ensures TryAt(op, c, i, j) == (c, 0)
  {
    assert i == j;
  }

  /** Two different slots: first the operands inside the first one, then both. */
  method TryPair(op: BinOp, s1: Slot, s2: Slot, count: Counter, ghost root: seq<Slot>, ghost i: nat, ghost j: nat)
    requires Distinct(root) && AreOperands(op, Contents(root))
    requires i < |root| && j < |root| && root[i] == s1 && root[j] == s2 && s1 != s2
    modifies s1, s2, count
    ensures
      var (d, n) := TryAt(op, old(Contents(root)), i, j);
      Contents(root) == d && count.n == old(count.n) + n
    decreases TotalSize(Contents(root)), 0, 1
  {
    hide JoinAt, PassOver;
    ghost var c := Contents(root);
    SizeInRow(c, i);
    if s1.e.Bin? {
      var e := DedupPass(s1.e, count);
      s1.e := e;
    }
    assert Contents(root) == c[i := s1.e];
    JoinSlots(op, s1, s2, count, root, i, j);
  }

  /** One pass over the operands of `e` against each other. */
  method DedupPass(e: Expr, count: Counter) returns (r: Expr)
    requires e.Bin?
    modifies count
    ensures var (d, n) := PassOver(e); r == d && count.n == old(count.n) + n
    ensures IsOp(e.op, r) && PassKeeps(e, r, count.n - old(count.n))
    decreases Size(e), 0, 0, 0
  {
    hide TryAll, Simplified, Tried, PassKeeps, AreOperands, Rebuilt;
    var op := e.op;
    var sp, row := Explode(op, e);
    OperandsAreSmaller(op, e);
    OperandsAreOperands(op, e);
    SizeOfOperands(op, e);
    assert Spans(sp, row, 0, |row|);
    EliminateDups1(op, sp, sp, count, row, 0, |row|, 0, |row|);
    AssembledIsRebuilt(op, e, sp);
    PassFacts(e);
    r := Assembled(op, sp);
  }

  lemma OperandsAreOperands(op: BinOp, e: Expr)
    ensures AreOperands(op, OperandsOf(op, e))
  {
    OperandsAreSmaller(op, e);
  }

  /** Replaces two slots that join by the neutral operand and the join. */
  method JoinSlots(op: BinOp, s1: Slot, s2: Slot, count: Counter, ghost root: seq<Slot>, ghost i: nat, ghost j: nat)
    requires Distinct(root)
    requires i < |root| && j < |root| && root[i] == s1 && root[j] == s2 && s1 != s2
    modifies s1, s2, count
    ensures
      var (d, n) := JoinAt(op, old(Contents(root)), i, j);
      Contents(root) == d && count.n == old(count.n) + n
  {
    hide Join;
    ghost var c := Contents(root);
    var tmp := Join(op, s1.e, s2.e);
    if tmp.Some? {
      s1.e := Neutral(op);
      s2.e := tmp.value;
      count.n := count.n + 1;
      assert Contents(root) == c[i := Neutral(op)][j := tmp.value];
    }
  }

  /** Repeats passes and the removal of constants until a pass finds nothing.
      Every pass that finds something leaves a constant operand behind, so the
      removal makes the expression smaller. */
  method EliminateDups(e: Expr, count: Counter) returns (r: Expr)
    modifies count
    ensures r == Deduplicated(e)
    ensures StandsFor(r, e) && Deduped(r) && Irredundant(r) && Size(r) <= Size(e)
    ensures Normal(e) ==> Normal(r)
    ensures count.n == old(count.n)
  {
    hide StandsFor, Deduped, Irredundant, PassOver, PassKeeps;
    var oldCount := count.n;
    r := e;
    DeduplicatedFacts(e);
    DedupedIsIrredundant(Deduplicated(e));
    while true
      invariant Deduplicated(r) == Deduplicated(e)
      decreases Size(r)
    {
      count.n := 0;
      ghost var before := r;
      if r.Bin? {
        r := DedupPass(r, count);
      }
      if count.n == 0 {
        break;
      }
      FoundShrinks(before);
      r := ElimYn(r);
    }
    count.n := oldCount;
  }
}
