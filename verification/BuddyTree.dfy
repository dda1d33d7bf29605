/** The implicit binary tree of Kernel/utils/memManagerBuddy.c as a value:
    node geometry, which nodes are live, the local consistency of tags, and the
    set of allocated blocks a tree stands for. */
module BuddyTree {
  import opened Bits

  /** NODE_UNUSED, NODE_USED, NODE_SPLIT, NODE_FULL. */
  datatype Tag = Unused | Used | Split | Full

  /** A run of pages. */
  datatype Block = Block(start: nat, len: nat)

  // ---- geometry ----------------------------------------------------------

  function Parent(i: nat): nat
    requires i > 0
  {
    (i - 1) / 2
  }

  function Buddy(i: nat): nat
    requires i > 0
  {
    if i % 2 == 1 then i + 1 else i - 1
  }

  function Depth(i: nat): nat {
    if i == 0 then 0 else Depth((i - 1) / 2) + 1
  }

  /** Pages under node i of a tree with 2^max leaves. */
  function Span(i: nat, max: nat): nat {
    if Depth(i) <= max then Pow2(max - Depth(i)) else 0
  }

  /** First page under node i. */
  function Start(i: nat, max: nat): nat {
    if i == 0 then 0
    else if i % 2 == 1 then Start((i - 1) / 2, max)
    else Start((i - 1) / 2, max) + Span(i, max)
  }

  function NodeBlock(i: nat, max: nat): Block {
    Block(Start(i, max), Span(i, max))
  }

  predicate Holds(i: nat, max: nat, p: int) {
    Start(i, max) <= p < Start(i, max) + Span(i, max)
  }

  /** i is j or one of its ancestors. */
  predicate Above(i: nat, j: nat) {
    i == j || (j > 0 && Above(i, (j - 1) / 2))
  }

  lemma {:induction false} DepthRange(i: nat)
    ensures Pow2(Depth(i)) - 1 <= i < 2 * Pow2(Depth(i)) - 1
  {
    if i > 0 { DepthRange((i - 1) / 2); }
  }

  /** The array of 2^(max+1) - 1 tags holds exactly the nodes of depth at most max. */
  lemma InArrayIffDepth(i: nat, max: nat)
    ensures i < 2 * Pow2(max) - 1 <==> Depth(i) <= max
    ensures 2 * i + 2 < 2 * Pow2(max) - 1 <==> Depth(i) < max
  {
    DepthRange(i);
    var d := Depth(i);
    if d <= max {
      Pow2Monotone(d, max);
      if d < max { Pow2Strict(d, max); }
    } else {
      Pow2Strict(max, d);
    }
  }

  /** How many nodes of its level lie to the left of i. */
  function Column(i: nat): (c: nat) {
    DepthRange(i);
    i + 1 - Pow2(Depth(i))
  }

  lemma ColumnStep(i: nat)
    requires i > 0
    ensures Column(i) == 2 * Column((i - 1) / 2) + (if i % 2 == 1 then 0 else 1)
  {
  }

  lemma Doubling(x: nat, s: nat, y: nat)
    ensures y == 2 * x ==> y * s == x * (2 * s)
    ensures y == 2 * x + 1 ==> y * s == x * (2 * s) + s
  {
  }

  /** The closed form computed by _index_offset. */
  lemma {:induction false} StartFormula(i: nat, max: nat)
    requires Depth(i) <= max
    ensures Start(i, max) == Column(i) * Span(i, max)
  {
    if i > 0 {
      var p := (i - 1) / 2;
      StartFormula(p, max);
      ColumnStep(i);
      assert Span(p, max) == 2 * Span(i, max);
      Doubling(Column(p), Span(i, max), Column(i));
    }
  }

  /** The two halves of a node. */
  lemma Halves(i: nat, max: nat)
    requires Depth(i) < max
    ensures Depth(2 * i + 1) == Depth(2 * i + 2) == Depth(i) + 1
    ensures Start(2 * i + 1, max) == Start(i, max)
    ensures 2 * Span(2 * i + 1, max) == Span(i, max) == 2 * Span(2 * i + 2, max)
    ensures Start(2 * i + 2, max) == Start(i, max) + Span(2 * i + 1, max)
  {
    assert (2 * i + 1 - 1) / 2 == i;
    assert (2 * i + 2 - 1) / 2 == i;
  }

  lemma InParent(i: nat, max: nat)
    requires i > 0 && Depth(i) <= max
    ensures Depth(Parent(i)) == Depth(i) - 1
    ensures Span(Parent(i), max) == 2 * Span(i, max)
    ensures Start(Parent(i), max) <= Start(i, max)
    ensures Start(i, max) + Span(i, max) <= Start(Parent(i), max) + Span(Parent(i), max)
  {
    Halves(Parent(i), max);
  }

  lemma {:induction false} InHeap(i: nat, max: nat)
    requires Depth(i) <= max
    ensures Start(i, max) + Span(i, max) <= Pow2(max)
  {
    if i > 0 {
      InParent(i, max);
      InHeap(Parent(i), max);
    }
  }

  /** Nodes sharing a page are related by ancestry. */
  lemma {:induction false} SharedPage(i: nat, j: nat, max: nat, p: int)
    ensures Depth(i) <= Depth(j) <= max && Holds(i, max, p) && Holds(j, max, p) ==> Above(i, j)
    decreases j
  {
    if i == 0 {
      RootAbove(j);
    } else if Depth(i) <= Depth(j) <= max && Holds(i, max, p) && Holds(j, max, p) {
      InParent(j, max);
      InParent(i, max);
      if Depth(i) < Depth(j) {
        SharedPage(i, Parent(j), max, p);
      } else {
        SharedPage(Parent(i), Parent(j), max, p);
        AboveDepth(Parent(i), Parent(j));
        Halves(Parent(i), max);
      }
    }
  }

  lemma RootAbove(j: nat)
    ensures Above(0, j)
  {
  }

  lemma {:induction false} AboveDepth(i: nat, j: nat)
    requires Above(i, j)
    ensures Depth(i) <= Depth(j) && (Depth(i) == Depth(j) ==> i == j)
  {
    if i != j { AboveDepth(i, (j - 1) / 2); }
  }

  lemma {:induction false} AboveTransitive(i: nat, j: nat, k: nat)
    requires Above(i, j) && Above(j, k)
    ensures Above(i, k)
    decreases k
  {
    if j != k { AboveTransitive(i, j, (k - 1) / 2); }
  }

  lemma {:induction false} AboveContains(i: nat, j: nat, max: nat)
    requires Above(i, j) && Depth(j) <= max
    ensures Start(i, max) <= Start(j, max)
    ensures Start(j, max) + Span(j, max) <= Start(i, max) + Span(i, max)
  {
    if i != j {
      InParent(j, max);
      AboveContains(i, Parent(j), max);
    }
  }

  /** A node is identified by its block. */
  lemma BlockDetermines(i: nat, j: nat, max: nat)
    requires Depth(i) <= max && Depth(j) <= max
    requires NodeBlock(i, max) == NodeBlock(j, max)
    ensures i == j
  {
    Pow2Injective(max - Depth(i), max - Depth(j));
    SharedPage(i, j, max, Start(i, max));
    AboveDepth(i, j);
  }

  // ---- tags --------------------------------------------------------------

  predicate Inner(x: Tag) { x.Split? || x.Full? }

  predicate Busy(x: Tag) { x.Used? || x.Full? }

  /** Reached from the root through SPLIT and FULL nodes. */
  predicate Live(t: seq<Tag>, i: nat)
    requires i < |t|
  {
    i == 0 || (Inner(t[(i - 1) / 2]) && Live(t, (i - 1) / 2))
  }

  /** FULL exactly when both halves are busy; SPLIT only when the halves are not both unused. */
  predicate Local(t: seq<Tag>, i: nat)
    requires i < |t|
  {
    Inner(t[i]) ==>
      && 2 * i + 2 < |t|
      && (t[i].Full? <==> Busy(t[2 * i + 1]) && Busy(t[2 * i + 2]))
      && !(t[2 * i + 1].Unused? && t[2 * i + 2].Unused?)
  }

  predicate Sized(t: seq<Tag>, max: nat) {
    |t| == 2 * Pow2(max) - 1
  }

  ghost predicate LocalExcept(t: seq<Tag>, x: int) {
    forall i: nat :: i < |t| && i != x && Live(t, i) ==> Local(t, i)
  }

  ghost predicate WellFormed(t: seq<Tag>, max: nat) {
    Sized(t, max) && LocalExcept(t, -1)
  }

  /** The live USED nodes. */
  ghost function UsedNodes(t: seq<Tag>): set<nat> {
    set i: nat | i < |t| && Live(t, i) && t[i].Used?
  }

  /** The allocated blocks. */
  ghost function Blocks(t: seq<Tag>, max: nat): set<Block> {
    set i | i in UsedNodes(t) :: NodeBlock(i, max)
  }

  lemma LiveAbove(t: seq<Tag>, i: nat, j: nat)
    requires j < |t| && Live(t, j) && Above(i, j)
    ensures i < |t| && Live(t, i)
    ensures i != j ==> Inner(t[i])
    decreases j
  {
    if i != j { LiveAbove(t, i, (j - 1) / 2); }
  }

  /** Liveness looks only at which proper ancestors are inner nodes. */
  lemma {:induction false} LiveSame(t: seq<Tag>, u: seq<Tag>, i: nat)
    requires |t| == |u| && i < |t|
    requires forall j: nat :: j < i && Above(j, i) ==> (Inner(t[j]) <==> Inner(u[j]))
    ensures Live(t, i) <==> Live(u, i)
    decreases i
  {
    if i > 0 {
      var p := (i - 1) / 2;
      assert Above(p, i);
      forall j: nat | j < p && Above(j, p) ensures Inner(t[j]) <==> Inner(u[j]) {
        assert Above(j, i);
      }
      LiveSame(t, u, p);
    }
  }

  /** Retagging a node without changing whether it is inner keeps every node's liveness. */
  lemma RetagKeepsLive(t: seq<Tag>, k: nat, x: Tag)
    requires k < |t| && (Inner(t[k]) <==> Inner(x))
    ensures forall i: nat :: i < |t| ==> (Live(t, i) <==> Live(t[k := x], i))
  {
    forall i: nat | i < |t| ensures Live(t, i) <==> Live(t[k := x], i) {
      LiveSame(t, t[k := x], i);
    }
  }

  // ---- pages -------------------------------------------------------------

  ghost predicate Taken(b: set<Block>, p: int) {
    exists x :: x in b && x.start <= p < x.start + x.len
  }

  ghost predicate FreeRun(b: set<Block>, a: int, n: nat) {
    forall p :: a <= p < a + n ==> !Taken(b, p)
  }

  ghost predicate Disjoint(b: set<Block>) {
    forall x, y :: x in b && y in b && x != y ==> x.start + x.len <= y.start || y.start + y.len <= x.start
  }

  /** A live node has nothing allocated in it iff it is unused. */
  lemma UnusedIsFree(t: seq<Tag>, max: nat, i: nat, p: int)
    requires Sized(t, max) && i < |t| && Live(t, i) && t[i].Unused? && Holds(i, max, p)
    ensures !Taken(Blocks(t, max), p)
  {
    if Taken(Blocks(t, max), p) {
      var x :| x in Blocks(t, max) && x.start <= p < x.start + x.len;
      var j :| j in UsedNodes(t) && x == NodeBlock(j, max);
      InArrayIffDepth(i, max);
      InArrayIffDepth(j, max);
      if Depth(i) <= Depth(j) {
        SharedPage(i, j, max, p);
        LiveAbove(t, i, j);
      } else {
        SharedPage(j, i, max, p);
        LiveAbove(t, j, i);
      }
    }
  }

  lemma UsedTaken(t: seq<Tag>, max: nat, j: nat, p: int)
    requires j in UsedNodes(t) && Holds(j, max, p)
    ensures Taken(Blocks(t, max), p)
  {
    assert NodeBlock(j, max) in Blocks(t, max);
  }

  /** Every page under a busy live node is allocated. */
  lemma {:induction false} BusyIsTaken(t: seq<Tag>, max: nat, i: nat, p: int)
    requires WellFormed(t, max) && i < |t| && Live(t, i) && Busy(t[i]) && Holds(i, max, p)
    ensures Taken(Blocks(t, max), p)
    decreases |t| - i
  {
    if t[i].Used? {
      UsedTaken(t, max, i, p);
    } else {
      assert Local(t, i);
      var l, r := 2 * i + 1, 2 * i + 2;
      InArrayIffDepth(i, max);
      Halves(i, max);
      assert (l - 1) / 2 == i && (r - 1) / 2 == i;
      BusyIsTaken(t, max, if Holds(l, max, p) then l else r, p);
    }
  }

  /** A live node that is not unused has an allocated page. */
  lemma {:induction false} NotUnusedHasBlock(t: seq<Tag>, max: nat, i: nat) returns (j: nat)
    requires WellFormed(t, max) && i < |t| && Live(t, i) && !t[i].Unused?
    ensures j in UsedNodes(t) && Above(i, j)
    decreases |t| - i
  {
    if t[i].Used? {
      j := i;
    } else {
      assert Local(t, i);
      var l, r := 2 * i + 1, 2 * i + 2;
      assert (l - 1) / 2 == i && (r - 1) / 2 == i;
      var c := if t[l].Unused? then r else l;
      j := NotUnusedHasBlock(t, max, c);
      assert Above(i, c);
      AboveTransitive(i, c, j);
    }
  }

  /** A live node that is not busy has a free page. */
  lemma {:induction false} NotBusyHasFree(t: seq<Tag>, max: nat, i: nat) returns (p: int)
    requires WellFormed(t, max) && i < |t| && Live(t, i) && !Busy(t[i])
    ensures Holds(i, max, p) && !Taken(Blocks(t, max), p)
    decreases |t| - i
  {
    InArrayIffDepth(i, max);
    if t[i].Unused? {
      p := Start(i, max);
      UnusedIsFree(t, max, i, p);
    } else {
      assert Local(t, i);
      Halves(i, max);
      var l, r := 2 * i + 1, 2 * i + 2;
      assert (l - 1) / 2 == i && (r - 1) / 2 == i;
      p := NotBusyHasFree(t, max, if Busy(t[l]) then r else l);
    }
  }

  /** Live blocks never overlap. */
  lemma BlocksDisjoint(t: seq<Tag>, max: nat)
    requires Sized(t, max)
    ensures Disjoint(Blocks(t, max))
    ensures forall x :: x in Blocks(t, max) ==> x.len > 0 && x.start + x.len <= Pow2(max)
  {
    var b := Blocks(t, max);
    forall x | x in b ensures x.len > 0 && x.start + x.len <= Pow2(max) {
      var i :| i in UsedNodes(t) && x == NodeBlock(i, max);
      InArrayIffDepth(i, max);
      InHeap(i, max);
    }
    forall x, y | x in b && y in b && x != y
      ensures x.start + x.len <= y.start || y.start + y.len <= x.start
    {
      var i :| i in UsedNodes(t) && x == NodeBlock(i, max);
      var j :| j in UsedNodes(t) && y == NodeBlock(j, max);
      NodesApart(t, max, i, j);
    }
  }

  lemma NodesApart(t: seq<Tag>, max: nat, i: nat, j: nat)
    requires Sized(t, max) && i in UsedNodes(t) && j in UsedNodes(t) && i != j
    ensures Start(i, max) + Span(i, max) <= Start(j, max) || Start(j, max) + Span(j, max) <= Start(i, max)
  {
    InArrayIffDepth(i, max);
    InArrayIffDepth(j, max);
    var p := if Start(i, max) < Start(j, max) then Start(j, max) else Start(i, max);
    if Holds(i, max, p) && Holds(j, max, p) {
      if Depth(i) <= Depth(j) {
        SharedPage(i, j, max, p);
        LiveAbove(t, i, j);
      } else {
        SharedPage(j, i, max, p);
        LiveAbove(t, j, i);
      }
    }
  }
}
