/** buddy_alloc, buddy_free and buddy_dumpMM on the in-place tag array
    (Kernel/utils/memManagerBuddy.c), proved against a set of disjoint blocks. */
module BuddyAllocator {
  import opened Options
  import opened Bits
  import opened BuddyTree
  import opened BuddySteps

  const PAGE_SIZE := 0x1000

  function Bytes(pages: nat): nat {
    pages * 0x1000
  }

  // ---- the simple specification --------------------------------------------

  /** C division of an int by the page size: truncates toward zero. */
  function PageOf(d: int): int {
    if d >= 0 then d / PAGE_SIZE else -((-d) / PAGE_SIZE)
  }

  /** Page count buddy_alloc looks for (lines 70-80), a negative int going to next_pow_of_2 as the
      unsigned word it is. */
  function RequestPages(s: int): nat {
    var pages := if s % PAGE_SIZE != 0 then PageOf(s) + 1 else PageOf(s);
    if pages == 0 then 1
    else if pages > 0 then NextPow2(pages)
    else if pages + 0x1_0000_0000 > 0 then NextPow2(pages + 0x1_0000_0000)
    else 0
  }

  predicate IsInt(s: int) { -0x8000_0000 <= s < 0x8000_0000 }

  /** The sizes that ask for at least one page. */
  predicate Servable(s: int) { s > -0x2000 && s != -0x1000 }

  /** Every other int asks for 0 pages, a count no node of the tree has. */
  lemma ZeroPagesIff(s: int)
    requires IsInt(s)
    ensures RequestPages(s) == 0 <==> !Servable(s)
  {
    hide NextPow2;
    var pages := if s % PAGE_SIZE != 0 then PageOf(s) + 1 else PageOf(s);
    assert pages < 0 <==> !Servable(s);
    if pages != 0 {
      var k := NextPow2IsLeast(if pages > 0 then pages else pages + 0x1_0000_0000);
    }
  }

  /** It is the least power of two of pages that holds s bytes. */
  lemma RequestIsLeast(s: int) returns (k: nat)
    requires IsInt(s) && Servable(s)
    ensures RequestPages(s) == Pow2(k) && s <= Pow2(k) * PAGE_SIZE
    ensures forall j: nat :: s <= Pow2(j) * PAGE_SIZE ==> Pow2(k) <= Pow2(j)
  {
    hide NextPow2;
    var pages := if s % PAGE_SIZE != 0 then PageOf(s) + 1 else PageOf(s);
    if pages == 0 {
      k := 0;
    } else {
      k := NextPow2IsLeast(pages);
      forall j: nat | s <= Pow2(j) * PAGE_SIZE ensures Pow2(k) <= Pow2(j) {
        assert pages <= Pow2(j);
      }
    }
  }

  /** a starts the lowest aligned run of n free pages of a heap of `pages` pages. */
  ghost predicate IsLowest(b: set<Block>, pages: nat, n: nat, a: nat)
    requires n > 0
  {
    && a % n == 0 && a + n <= pages && FreeRun(b, a, n)
    && forall c: nat :: c < a && c % n == 0 ==> !FreeRun(b, c, n)
  }

  ghost predicate NoFreeRun(b: set<Block>, pages: nat, n: nat)
    requires n > 0
  {
    forall c: nat :: c + n <= pages && c % n == 0 ==> !FreeRun(b, c, n)
  }

  /** The blocks left when the one starting at page a is released. */
  ghost function Without(b: set<Block>, a: int): set<Block> {
    set x | x in b && x.start != a
  }

  lemma OneStart(b: set<Block>, x: Block)
    requires Disjoint(b) && x in b && forall y :: y in b ==> y.len > 0
    ensures Without(b, x.start) == b - {x}
  {
  }

  /** The allocated pages of a range. */
  ghost function TakenPages(b: set<Block>, lo: nat, n: nat): set<int> {
    set p | lo <= p < lo + n && Taken(b, p)
  }

  lemma NonePages(b: set<Block>, lo: nat, n: nat)
    requires forall p :: lo <= p < lo + n ==> !Taken(b, p)
    ensures TakenPages(b, lo, n) == {}
  {
  }

  lemma {:induction false} AllPages(b: set<Block>, lo: nat, n: nat)
    requires forall p :: lo <= p < lo + n ==> Taken(b, p)
    ensures |TakenPages(b, lo, n)| == n
    decreases n
  {
    if n == 0 {
      assert TakenPages(b, lo, n) == {};
    } else {
      AllPages(b, lo, n - 1);
      assert TakenPages(b, lo, n) == TakenPages(b, lo, n - 1) + {lo + n - 1};
    }
  }

  lemma JoinPages(b: set<Block>, lo: nat, n: nat, l: nat, m: nat, r: nat, k: nat)
    requires l == lo && r == l + m && n == m + k
    ensures |TakenPages(b, lo, n)| == |TakenPages(b, l, m)| + |TakenPages(b, r, k)|
  {
    var x, y := TakenPages(b, l, m), TakenPages(b, r, k);
    assert TakenPages(b, lo, n) == x + y;
    assert x * y == {};
  }

  /** Allocated pages under node i. */
  ghost function NodeUse(t: seq<Tag>, max: nat, i: nat): nat {
    |TakenPages(Blocks(t, max), Start(i, max), Span(i, max))|
  }

  lemma UnusedPages(t: seq<Tag>, max: nat, i: nat)
    requires Sized(t, max) && i < |t| && Live(t, i) && t[i].Unused?
    ensures NodeUse(t, max, i) == 0
  {
    forall p | Holds(i, max, p) ensures !Taken(Blocks(t, max), p) { UnusedIsFree(t, max, i, p); }
    NonePages(Blocks(t, max), Start(i, max), Span(i, max));
  }

  lemma UsedPages(t: seq<Tag>, max: nat, i: nat)
    requires i in UsedNodes(t)
    ensures NodeUse(t, max, i) == Span(i, max)
  {
    forall p | Holds(i, max, p) ensures Taken(Blocks(t, max), p) { UsedTaken(t, max, i, p); }
    AllPages(Blocks(t, max), Start(i, max), Span(i, max));
  }

  // ---- the search has ruled out everything before a page --------------------

  ghost predicate NoneBelow(b: set<Block>, n: nat, e: nat)
    requires n > 0
  {
    forall c: nat :: c < e && c % n == 0 ==> !FreeRun(b, c, n)
  }

  lemma Pow2Order(k: nat, m: nat)
    ensures Pow2(k) <= Pow2(m) <==> k <= m
    ensures Pow2(k) < Pow2(m) ==> 2 * Pow2(k) <= Pow2(m) && k < m
  {
    if k < m { Pow2Strict(k, m); } else if m < k { Pow2Strict(m, k); }
  }

  lemma StartAligned(i: nat, max: nat, k: nat)
    requires Depth(i) <= max && k <= max - Depth(i)
    ensures Start(i, max) % Pow2(k) == 0
  {
    StartFormula(i, max);
    var m := max - Depth(i);
    Pow2Add(m - k, k);
    MultipleOfMultiple(Column(i), Pow2(m - k), Pow2(k));
  }

  /** A node that cannot serve the request extends the region already ruled out. */
  lemma RuleOut(t: seq<Tag>, max: nat, i: nat, k: nat)
    requires WellFormed(t, max) && i < |t| && Live(t, i) && k <= max - Depth(i)
    requires NoneBelow(Blocks(t, max), Pow2(k), Start(i, max))
    requires if Pow2(k) == Span(i, max) then !t[i].Unused? else Busy(t[i])
    ensures NoneBelow(Blocks(t, max), Pow2(k), Start(i, max) + Span(i, max))
  {
    var b, n := Blocks(t, max), Pow2(k);
    InArrayIffDepth(i, max);
    forall c: nat | Start(i, max) <= c < Start(i, max) + Span(i, max) && c % n == 0
      ensures !FreeRun(b, c, n)
    {
      if Busy(t[i]) {
        BusyIsTaken(t, max, i, c);
      } else {
        StartAligned(i, max, k);
        MultiplesApart(Start(i, max), c, n);
        var j := NotUnusedHasBlock(t, max, i);
        InArrayIffDepth(j, max);
        AboveContains(i, j, max);
        UsedTaken(t, max, j, Start(j, max));
      }
    }
  }

  /** The node above a right half ends where that half ends; above the root there is nothing. */
  lemma UpFromRight(t: seq<Tag>, max: nat, i: nat)
    requires i < |t| && Live(t, i) && Depth(i) <= max && i % 2 == 0
    ensures i == 0 ==> (i + 1) / 2 - 1 < 0 && Start(i, max) + Span(i, max) == Pow2(max)
    ensures i > 0 ==>
      var p := (i + 1) / 2 - 1;
      && 0 <= p < i && Live(t, p)
      && Depth(p) == Depth(i) - 1 && Span(p, max) == 2 * Span(i, max)
      && Start(p, max) + Span(p, max) == Start(i, max) + Span(i, max)
  {
    if i > 0 {
      assert (i + 1) / 2 - 1 == Parent(i);
      InParent(i, max);
      Halves(Parent(i), max);
    }
  }

  /** The right sibling of a left half starts where that half ends. */
  lemma Sibling(t: seq<Tag>, max: nat, i: nat)
    requires WellFormed(t, max) && i < |t| && Live(t, i) && i % 2 == 1
    ensures i + 1 < |t| && Live(t, i + 1)
    ensures Depth(i + 1) == Depth(i) <= max && Span(i + 1, max) == Span(i, max)
    ensures Start(i + 1, max) == Start(i, max) + Span(i, max)
  {
    var p := (i - 1) / 2;
    assert Local(t, p);
    InArrayIffDepth(p, max);
    Halves(p, max);
    assert (i + 1 - 1) / 2 == p;
  }

  lemma RootNode(t: seq<Tag>, max: nat)
    requires Sized(t, max)
    ensures |t| > 0 && Live(t, 0) && Depth(0) == 0 && Start(0, max) == 0 && Span(0, max) == Pow2(max)
  {
  }

  lemma SpanAt(i: nat, max: nat)
    requires Depth(i) <= max
    ensures Span(i, max) == Pow2(max - Depth(i)) > 0
  {
  }

  /** Where the halves of a SPLIT or FULL node are. */
  lemma InnerNode(t: seq<Tag>, max: nat, i: nat)
    requires WellFormed(t, max) && i < |t| && Live(t, i) && Inner(t[i])
    ensures i * 2 + 2 < |t| && Live(t, i * 2 + 1) && Live(t, i * 2 + 2)
    ensures Depth(i * 2 + 1) == Depth(i * 2 + 2) == Depth(i) + 1 <= max
    ensures Start(i * 2 + 1, max) == Start(i, max)
    ensures Start(i * 2 + 2, max) == Start(i, max) + Span(i, max) / 2
    ensures Span(i * 2 + 1, max) == Span(i * 2 + 2, max) == Span(i, max) / 2
    ensures Span(i, max) == Span(i * 2 + 1, max) + Span(i * 2 + 2, max)
  {
    assert Local(t, i);
    InArrayIffDepth(i, max);
    Halves(i, max);
    assert (2 * i + 1 - 1) / 2 == i && (2 * i + 2 - 1) / 2 == i;
  }

  // ---- the allocator ---------------------------------------------------------

  class Buddy {
    const max: nat          // self.level
    const heapAddress: int
    const tree: array<Tag>

    ghost predicate Valid()
      reads tree
    {
      WellFormed(tree[..], max)
    }

    ghost function Allocated(): set<Block>
      reads tree
    {
      Blocks(tree[..], max)
    }

    /** initMemoryManager */
    constructor (max: nat, heapAddress: int)
      ensures Valid() && fresh(tree) && this.max == max && this.heapAddress == heapAddress
      ensures Allocated() == {}
    {
      this.max := max;
      this.heapAddress := heapAddress;
      tree := new Tag[2 * Pow2(max) - 1](_ => Unused);
    }

    /** _index_offset */
    method IndexOffset(index: nat, level: nat) returns (p: int)
      requires level == Depth(index) <= max
      ensures p == Start(index, max) * PAGE_SIZE + heapAddress
    {
      StartFormula(index, max);
      p := ((index + 1) - Pow2(level)) * Pow2(max - level) * PAGE_SIZE + heapAddress;
    }

    /** _mark_parent */
    method MarkParent(start: nat)
      requires MarkReady(tree[..], max, start)
      modifies tree
      ensures Valid() && UsedNodes(tree[..]) == old(UsedNodes(tree[..]))
    {
      var index: int := start;
      while true
        invariant index >= 0 && MarkReady(tree[..], max, index)
        invariant UsedNodes(tree[..]) == old(UsedNodes(tree[..]))
        decreases index
      {
        ghost var t := tree[..];
        var buddy := index - 1 + (index % 2) * 2;
        if buddy > 0 && (tree[buddy].Used? || tree[buddy].Full?) {
          MarkUp(t, max, index);
          index := (index + 1) / 2 - 1;
          tree[index] := Full;
          assert tree[..] == t[index := Full];
        } else {
          MarkStop(t, max, index);
          return;
        }
      }
    }

    /** The "next subtree" part of the search (lines 113-128): right sibling, or up until there is one. */
    method NextSubtree(index0: nat, level0: nat, length0: nat)
      returns (found: bool, index: int, level: int, length: nat)
      requires Valid() && index0 < tree.Length && Live(tree[..], index0)
      requires level0 == Depth(index0) && length0 == Span(index0, max)
      ensures !found ==> Start(index0, max) + Span(index0, max) == Pow2(max)
      ensures found ==> 0 <= index < tree.Length && Live(tree[..], index)
      ensures found ==> level == Depth(index) && length == Span(index, max) >= length0
      ensures found ==> Start(index, max) == Start(index0, max) + Span(index0, max)
    {
      hide Start, Span, Live, Local;
      ghost var t := tree[..];
      index, level, length := index0, level0, length0;
      found := true;
      InArrayIffDepth(index, max);
      if index % 2 == 1 {
        Sibling(t, max, index);
        index := index + 1;
      } else {
        var cont := true;
        while cont
          invariant 0 <= index < |t| && Live(t, index) && Depth(index) <= max && tree[..] == t
          invariant level == Depth(index) && length == Span(index, max) >= length0
          invariant cont ==> index % 2 == 0
          invariant Start(index, max) + (if cont then Span(index, max) else 0) == Start(index0, max) + Span(index0, max)
          decreases cont, index
        {
          UpFromRight(t, max, index);
          level := level - 1;
          length := length * 2;
          index := (index + 1) / 2 - 1;
          if index < 0 {
            found := false;
            return;
          }
          if index % 2 == 1 {
            Sibling(t, max, index);
            index := index + 1;
            cont := false;
          }
        }
      }
    }

    /** State of the search: either nothing has been changed, or the current node is unused and
        hangs from a node that was just split. */
    ghost predicate Searching(index: nat, t0: seq<Tag>)
      reads tree
    {
      var t := tree[..];
      && Sized(t, max) && index < |t| && Live(t, index)
      && UsedNodes(t) == UsedNodes(t0)
      && (t == t0 || (t[index].Unused? && index > 0 && t[Parent(index)].Split? && 2 * Parent(index) + 2 < |t|
                      && LocalExcept(t, Parent(index))))
    }

    /** The request is served by node index (lines 92-96). */
    method Take(index: nat, level: nat, ghost t0: seq<Tag>) returns (p: int)
      requires Searching(index, t0) && WellFormed(t0, max) && tree[index].Unused?
      requires level == Depth(index)
      modifies tree
      ensures Valid() && p == Start(index, max) * PAGE_SIZE + heapAddress
      ensures FreeRun(Blocks(t0, max), Start(index, max), Span(index, max))
      ensures Allocated() == Blocks(t0, max) + {NodeBlock(index, max)}
    {
      ghost var t := tree[..];
      assert Blocks(t, max) == Blocks(t0, max);
      forall q | Holds(index, max, q) ensures !Taken(Blocks(t0, max), q) {
        UnusedIsFree(t, max, index, q);
      }
      TakeUnused(t, max, index);
      tree[index] := Used;
      assert tree[..] == t[index := Used];
      MarkParent(index);
      InArrayIffDepth(index, max);
      p := IndexOffset(index, level);
    }

    /** One level down, splitting an unused node on the way (lines 98-109). */
    method Descend(index: nat, ghost t0: seq<Tag>)
      requires Searching(index, t0) && WellFormed(t0, max)
      requires !Busy(tree[index]) && Depth(index) < max
      modifies tree
      ensures Searching(2 * index + 1, t0)
      ensures Depth(2 * index + 1) == Depth(index) + 1 && Start(2 * index + 1, max) == Start(index, max)
      ensures 2 * Span(2 * index + 1, max) == Span(index, max)
    {
      ghost var t := tree[..];
      InArrayIffDepth(index, max);
      Halves(index, max);
      assert (2 * index + 1 - 1) / 2 == index;
      if tree[index].Unused? {
        tree[index] := Split;
        tree[index * 2 + 1] := Unused;
        tree[index * 2 + 2] := Unused;
        SplitUnused(t, max, index, tree[..]);
      } else {
        assert Local(t, index);
      }
    }

    /** A node that cannot serve the request is passed over. */
    method PassOver(index0: nat, level0: nat, length0: nat, size: nat, ghost k: nat)
      returns (found: bool, index: int, level: int, length: nat)
      requires Valid() && index0 < tree.Length && Live(tree[..], index0)
      requires level0 == Depth(index0) && length0 == Span(index0, max)
      requires size == Pow2(k) && k <= max - Depth(index0)
      requires if size == length0 then !tree[index0].Unused? else Busy(tree[index0])
      requires NoneBelow(Allocated(), size, Start(index0, max))
      ensures !found ==> NoFreeRun(Allocated(), Pow2(max), size)
      ensures found ==> 0 <= index < tree.Length && Live(tree[..], index)
      ensures found ==> level == Depth(index) && length == Span(index, max) >= length0
      ensures found ==> Start(index, max) == Start(index0, max) + Span(index0, max)
      ensures found ==> NoneBelow(Allocated(), size, Start(index, max))
    {
      RuleOut(tree[..], max, index0, k);
      found, index, level, length := NextSubtree(index0, level0, length0);
    }

    /** The search of buddy_alloc for a run of size == 2^k pages (lines 81-131). */
    method AllocPages(size: nat, ghost k: nat) returns (r: Option<int>)
      requires Valid() && size == Pow2(k)
      modifies tree
      ensures Valid()
      ensures r.None? ==> NoFreeRun(old(Allocated()), Pow2(max), size) && tree[..] == old(tree[..])
      ensures r.Some? ==>
        exists a: nat ::
          && r.value == a * PAGE_SIZE + heapAddress
          && IsLowest(old(Allocated()), Pow2(max), size, a)
          && Allocated() == old(Allocated()) + {Block(a, size)}
    {
      hide Start, Span, Depth, Live, Local, Pow2;
      var length := Pow2(max);
      if size > length {
        return None;
      }
      RootNode(tree[..], max);
      var index: int := 0;
      var level: int := 0;
      ghost var t0, b := tree[..], Allocated();
      while index >= 0
        invariant 0 <= index < tree.Length && Searching(index, t0)
        invariant level == Depth(index) && length == Span(index, max) && size <= length
        invariant NoneBelow(b, size, Start(index, max))
        decreases Pow2(max) - Start(index, max), length
      {
        InArrayIffDepth(index, max);
        SpanAt(index, max);
        Pow2Order(k, max - Depth(index));
        InHeap(index, max);
        if size == length && tree[index].Unused? {
          StartAligned(index, max, k);
          ghost var a := Start(index, max);
          var p := Take(index, level, t0);
          assert IsLowest(b, Pow2(max), size, a);
          return Some(p);
        } else if size != length && !Busy(tree[index]) {
          Descend(index, t0);
          index := index * 2 + 1;
          length := length / 2;
          level := level + 1;
        } else {
          var found;
          found, index, level, length := PassOver(index, level, length, size, k);
          if !found {
            return None;
          }
          InArrayIffDepth(index, max);
          InHeap(index, max);
        }
      }
      return None;
    }

    /** buddy_alloc */
    method Alloc(s: int) returns (r: Option<int>)
      requires Valid() && IsInt(s) && Servable(s)
      modifies tree
      ensures Valid()
      ensures RequestPages(s) > 0
      ensures r.None? ==> NoFreeRun(old(Allocated()), Pow2(max), RequestPages(s)) && tree[..] == old(tree[..])
      ensures r.Some? ==>
        exists a: nat ::
          && r.value == a * PAGE_SIZE + heapAddress
          && IsLowest(old(Allocated()), Pow2(max), RequestPages(s), a)
          && Allocated() == old(Allocated()) + {Block(a, RequestPages(s))}
    {
      ghost var k := RequestIsLeast(s);
      r := AllocPages(RequestPages(s), k);
    }

    /** _combine */
    method Combine(start: nat)
      requires Valid() && start in UsedNodes(tree[..])
      modifies tree
      ensures Valid() && Allocated() == old(Allocated()) - {NodeBlock(start, max)}
    {
      var index: int := start;
      ghost var t := tree[..];
      forall k | k in UsedNodes(t) && Above(start, k) ensures k == start { LiveAbove(t, start, k); }
      while true
        invariant index >= 0 && OnlyBlock(t, index, start) && tree[..] == t
        decreases index
      {
        var buddy := index - 1 + (index % 2) * 2;
        if index > 0 { assert Local(t, Parent(index)); }
        if buddy < 0 || !tree[buddy].Unused? {
          ClearNode(t, max, index, start);
          tree[index] := Unused;
          assert tree[..] == t[index := Unused];
          Release(index);
          return;
        }
        CombineUp(t, max, index, start);
        index := (index + 1) / 2 - 1;
      }
    }

    /** The second loop of _combine: FULL ancestors become SPLIT again. */
    method Release(start: nat)
      requires ReleaseReady(tree[..], max, start)
      modifies tree
      ensures Valid() && UsedNodes(tree[..]) == old(UsedNodes(tree[..]))
      ensures Allocated() == old(Allocated())
    {
      ghost var child: nat := start;
      var index := (start + 1) / 2 - 1;
      while index >= 0 && tree[index].Full?
        invariant index == Pending(child)
        invariant ReleaseReady(tree[..], max, child)
        invariant UsedNodes(tree[..]) == old(UsedNodes(tree[..]))
        decreases index
      {
        ghost var t := tree[..];
        ReleaseUp(t, max, child);
        tree[index] := Split;
        assert tree[..] == t[index := Split];
        child := index;
        index := (index + 1) / 2 - 1;
      }
      ReleaseStop(tree[..], max, child);
    }

    /** buddy_free: true for the C result 0, false for -1. */
    method Free(pointer: int) returns (ok: bool)
      requires Valid()
      modifies tree
      ensures Valid()
      ensures ok <==> exists x :: x in old(Allocated()) && x.start == PageOf(pointer - heapAddress)
      ensures ok ==> Allocated() == Without(old(Allocated()), PageOf(pointer - heapAddress))
      ensures !ok ==> tree[..] == old(tree[..])
    {
      hide Start, Span, Depth, Live, Local, Pow2, PageOf;
      var offset := PageOf(pointer - heapAddress);
      ghost var t, b := tree[..], Allocated();
      BlocksDisjoint(t, max);
      RootNode(t, max);
      if offset >= Pow2(max) {
        return false;
      }
      var left, length := 0, Pow2(max);
      var index: nat := 0;
      while true
        invariant index < tree.Length && Live(t, index) && tree[..] == t
        invariant Depth(index) <= max && left == Start(index, max) && length == Span(index, max)
        invariant left <= offset < left + length || (offset < 0 && left == 0)
        decreases max - Depth(index)
      {
        match tree[index] {
          case Used =>
            assert NodeBlock(index, max) in b;
            if offset != left {
              return false;
            }
            Combine(index);
            OneStart(b, NodeBlock(index, max));
            return true;
          case Unused =>
            if offset >= 0 { UnusedIsFree(t, max, index, offset); }
            return false;
          case _ =>
            InnerNode(t, max, index);
            length := length / 2;
            if offset < left + length {
              index := index * 2 + 1;
            } else {
              left := left + length;
              index := index * 2 + 2;
            }
        }
      }
    }

    /** dumpMM's totals */
    method Totals() returns (size: nat, used: nat)
      requires Valid()
      ensures size == Bytes(Pow2(max))
      ensures used == Bytes(|TakenPages(Allocated(), 0, Pow2(max))|)
    {
      var root: nat := 0;
      DumpExact(tree[..], max, root, Depth(root), 0, 0);
      var d := DumpMM(tree[..], max, root, Depth(root), 0, 0);
      size, used := d.0, d.1;
    }
  }

  /** buddy_dumpMM with its two accumulators. */
  function DumpMM(t: seq<Tag>, max: nat, i: nat, level: nat, size: nat, used: nat): (nat, nat)
    requires WellFormed(t, max) && i < |t| && Live(t, i) && level == Depth(i) <= max
    decreases max - level
  {
    var here := Bytes(Pow2(max - level));
    match t[i]
    case Unused => (size + here, used)
    case Used => (size + here, used + here)
    case _ =>
      InnerNode(t, max, i);
      var left := DumpMM(t, max, i * 2 + 1, level + 1, size, used);
      DumpMM(t, max, i * 2 + 2, level + 1, left.0, left.1)
  }

  /** use(i) is zero on unused nodes, the whole span on used ones, and adds up over the halves. */
  ghost predicate Additive(t: seq<Tag>, max: nat, use: nat -> nat) {
    forall i: nat {:trigger Live(t, i)} :: i < |t| && Live(t, i) ==>
      && (t[i].Unused? ==> use(i) == 0)
      && (t[i].Used? ==> use(i) == Span(i, max))
      && (Inner(t[i]) ==> use(i) == use(i * 2 + 1) + use(i * 2 + 2))
  }

  lemma {:induction false} DumpAdds(t: seq<Tag>, max: nat, use: nat -> nat, i: nat, level: nat, size: nat, used: nat)
    requires WellFormed(t, max) && Additive(t, max, use) && i < |t| && Live(t, i) && level == Depth(i) <= max
    ensures DumpMM(t, max, i, level, size, used).0 == size + Bytes(Span(i, max))
    ensures DumpMM(t, max, i, level, size, used).1 == used + Bytes(use(i))
    decreases max - level
  {
    hide Start, Span, Depth, Live, Local, Pow2;
    SpanAt(i, max);
    if Inner(t[i]) {
      InnerNode(t, max, i);
      var l := DumpMM(t, max, i * 2 + 1, level + 1, size, used);
      DumpAdds(t, max, use, i * 2 + 1, level + 1, size, used);
      var r := DumpMM(t, max, i * 2 + 2, level + 1, l.0, l.1);
      DumpAdds(t, max, use, i * 2 + 2, level + 1, l.0, l.1);
      assert DumpMM(t, max, i, level, size, used) == r;
    }
  }

  /** The dump's total under any live node is its whole span and its used part is every
      allocated page there, whatever the tags. */
  lemma DumpExact(t: seq<Tag>, max: nat, i: nat, level: nat, size: nat, used: nat)
    requires WellFormed(t, max) && i < |t| && Live(t, i) && level == Depth(i) <= max
    ensures DumpMM(t, max, i, level, size, used).0 == size + Bytes(Span(i, max))
    ensures DumpMM(t, max, i, level, size, used).1 == used + Bytes(NodeUse(t, max, i))
  {
    var use := NodeUseAdditive(t, max);
    DumpAdds(t, max, use, i, level, size, used);
    assert use(i) == NodeUse(t, max, i);
  }

  lemma NodeUseAdditive(t: seq<Tag>, max: nat) returns (use: nat -> nat)
    requires WellFormed(t, max)
    ensures Additive(t, max, use)
    ensures forall j: nat :: use(j) == NodeUse(t, max, j)
  {
    use := (j: nat) => NodeUse(t, max, j);
    forall j: nat {:trigger Live(t, j)} | j < |t| && Live(t, j)
      ensures t[j].Unused? ==> use(j) == 0
      ensures t[j].Used? ==> use(j) == Span(j, max)
      ensures Inner(t[j]) ==> use(j) == use(j * 2 + 1) + use(j * 2 + 2)
    {
      NodeUseAdds(t, max, j);
    }
  }

  lemma NodeUseAdds(t: seq<Tag>, max: nat, i: nat)
    requires WellFormed(t, max) && i < |t| && Live(t, i)
    ensures t[i].Unused? ==> NodeUse(t, max, i) == 0
    ensures t[i].Used? ==> NodeUse(t, max, i) == Span(i, max)
    ensures Inner(t[i]) ==> NodeUse(t, max, i) == NodeUse(t, max, i * 2 + 1) + NodeUse(t, max, i * 2 + 2)
  {
    match t[i] {
      case Unused => UnusedPages(t, max, i);
      case Used => UsedPages(t, max, i);
      case _ => InnerPages(t, max, i, 2 * i + 1, 2 * i + 2);
    }
  }

  lemma InnerPages(t: seq<Tag>, max: nat, i: nat, l: nat, r: nat)
    requires WellFormed(t, max) && i < |t| && Live(t, i) && Inner(t[i]) && l == 2 * i + 1 && r == 2 * i + 2
    ensures NodeUse(t, max, i) == NodeUse(t, max, l) + NodeUse(t, max, r)
  {
    assert Local(t, i);
    InArrayIffDepth(i, max);
    Halves(i, max);
    JoinPages(Blocks(t, max), Start(i, max), Span(i, max), Start(l, max), Span(l, max), Start(r, max), Span(r, max));
  }
}
