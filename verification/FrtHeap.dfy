/** pvPortMalloc, vPortFree, prvHeapInit and prvInsertBlockIntoFreeList on block headers kept in
    memory (Kernel/utils/memManagerFRT4.c).  `mem` is the memory seen as headers by address. */
module FrtHeap {
  import opened FrtLayout

  const BIT := 0x8000_0000_0000_0000     // xBlockAllocatedBit
  const WORD := 0x1_0000_0000_0000_0000  // size_t wraps here

  /** BlockLink_t; next is 0 for NULL. */
  datatype Link = Link(next: int, size: int)

  /** The request after the header is added and the size is aligned (lines 53-60), in size_t arithmetic. */
  function Rounded(w: int): int {
    var v := (w + HEADER) % WORD;
    if v % 8 != 0 then (v + (8 - v % 8)) % WORD else v
  }

  /** The rounding never wraps: header and payload fit, with less than 8 bytes of padding. */
  lemma RoundedExact(w: int)
    requires 0 < w < BIT
    ensures Aligned(Rounded(w)) && w + HEADER <= Rounded(w) < w + HEADER + 8
  {
  }

  function Next(f: seq<Chunk>, i: int, end: int): int {
    if 0 <= i < |f| then f[i].addr else end
  }

  /** The headers from xStart through pxEnd spell out the free list f. */
  ghost predicate ListIn(mem: map<int, Link>, start: int, end: int, f: seq<Chunk>) {
    && start in mem && mem[start] == Link(Next(f, 0, end), 0)
    && end in mem && mem[end] == Link(0, 0)
    && forall i :: 0 <= i < |f| ==> NodeIn(mem, end, f, i)
  }

  ghost predicate NodeIn(mem: map<int, Link>, end: int, f: seq<Chunk>, i: int)
    requires 0 <= i < |f|
  {
    f[i].addr in mem && mem[f[i].addr] == Link(Next(f, i + 1, end), f[i].size)
  }

  ghost predicate OnList(f: seq<Chunk>, a: int) {
    exists j :: 0 <= j < |f| && f[j].addr == a
  }

  ghost predicate HeadersIn(mem: map<int, Link>, live: map<int, int>) {
    forall a :: a in live ==> a in mem && mem[a] == Link(0, live[a] + BIT)
  }

  /** Every header written lies outside every live block, other than at the block's own start. */
  ghost predicate PayloadsUntouched(before: map<int, Link>, after: map<int, Link>, start: int, live: map<int, int>) {
    forall a, b :: a in after && (a !in before || after[a] != before[a]) && a != start && b in live ==>
      a == b || a + HEADER <= b || b + live[b] <= a
  }

  /** g is f with c inserted at its position i and merged with the neighbours it touches. */
  ghost predicate MergedAt(f: seq<Chunk>, c: Chunk, g: seq<Chunk>, i: int) {
    IsPosition(f, c, i) && g == Merged(f, c, i)
  }

  /** What malloc may answer: NULL exactly when the request is empty, oversized, or fits no free
      chunk, and otherwise the block cut from the lowest chunk that fits. */
  ghost predicate Answer(f: seq<Chunk>, live: map<int, int>, size: int, r: int, f': seq<Chunk>, live': map<int, int>) {
    && (r == 0 <==> size == 0 || size >= BIT || forall i :: 0 <= i < |f| ==> f[i].size < Rounded(size))
    && (r == 0 ==> f' == f && live' == live)
    && (r != 0 ==> exists k :: TakenAt(f, live, Rounded(size), r, f', live', k))
  }

  ghost predicate TakenAt(f: seq<Chunk>, live: map<int, int>, wanted: int, r: int, f': seq<Chunk>, live': map<int, int>, k: int) {
    && FirstFit(f, wanted, k) && r == f[k].addr + HEADER
    && f' == TakeFree(f, k, wanted)
    && live' == live[f[k].addr := BlockSize(f[k].size, wanted)]
  }

  ghost predicate Released(f: seq<Chunk>, c: Chunk, g: seq<Chunk>) {
    exists i :: MergedAt(f, c, g, i)
  }

  ghost predicate IsLeast(m: int, s: seq<int>) {
    m in s && forall i :: 0 <= i < |s| ==> m <= s[i]
  }

  lemma LeastAppend(m: int, s: seq<int>, x: int)
    requires IsLeast(m, s)
    ensures IsLeast(if x < m then x else m, s + [x])
  {
    var t := s + [x];
    assert x == t[|s|];
    var i :| 0 <= i < |s| && s[i] == m;
    assert t[i] == m;
  }

  lemma LeastKept(m: int, s: seq<int>, x: int)
    requires IsLeast(m, s) && |s| > 0 && x >= s[|s| - 1]
    ensures IsLeast(m, s + [x])
  {
    LeastAppend(m, s, x);
  }

  /** Addresses of list nodes are distinct from each other and from both ends. */
  ghost predicate Separate(start: int, base: int, end: int, f: seq<Chunk>) {
    && SortedFree(base, end, f)
    && 0 < base < end && start > 0
    && (start + HEADER <= base || end + HEADER <= start)
  }

  /** Node before position i of the list. */
  function NodeBefore(start: int, f: seq<Chunk>, i: int): int {
    if 0 < i <= |f| then f[i - 1].addr else start
  }

  function SizeBefore(f: seq<Chunk>, i: int): int {
    if 0 < i <= |f| then f[i - 1].size else 0
  }

  lemma NodeAt(mem: map<int, Link>, start: int, end: int, f: seq<Chunk>, i: int)
    requires ListIn(mem, start, end, f) && 0 <= i <= |f|
    ensures i < |f| ==> f[i].addr in mem && mem[f[i].addr] == Link(Next(f, i + 1, end), f[i].size)
    ensures NodeBefore(start, f, i) in mem
    ensures mem[NodeBefore(start, f, i)] == Link(Next(f, i, end), SizeBefore(f, i))
  {
    assert i < |f| ==> NodeIn(mem, end, f, i);
    assert i > 0 ==> NodeIn(mem, end, f, i - 1);
  }

  function Spliced(f: seq<Chunk>, lo: nat, hi: nat, mid: seq<Chunk>): seq<Chunk>
    requires lo <= hi <= |f|
  {
    f[..lo] + mid + f[hi..]
  }

  /** The two headers that change when positions lo to hi of the list are replaced by mid. */
  ghost predicate Rewritten(mem: map<int, Link>, after: map<int, Link>, start: int, end: int,
                            f: seq<Chunk>, lo: nat, hi: nat, mid: seq<Chunk>)
    requires lo <= hi <= |f|
  {
    var p := NodeBefore(start, f, lo);
    && |mid| <= 1
    && (mid != [] ==> mid[0].addr in after && after[mid[0].addr] == Link(Next(f, hi, end), mid[0].size))
    && p in after
    && after[p] == Link(if mid == [] then Next(f, hi, end) else mid[0].addr, SizeBefore(f, lo))
    && forall a :: a in mem && a != p && (mid != [] ==> a != mid[0].addr) ==> a in after && after[a] == mem[a]
  }

  /** Such a rewriting turns the list f into the spliced list. */
  lemma Splice(mem: map<int, Link>, after: map<int, Link>, start: int, base: int, end: int,
               f: seq<Chunk>, lo: nat, hi: nat, mid: seq<Chunk>)
    requires Separate(start, base, end, f) && ListIn(mem, start, end, f) && lo <= hi <= |f|
    requires SortedFree(base, end, Spliced(f, lo, hi, mid)) && Rewritten(mem, after, start, end, f, lo, hi, mid)
    ensures ListIn(after, start, end, Spliced(f, lo, hi, mid))
  {
    var g := Spliced(f, lo, hi, mid);
    forall j | 0 <= j < |g|
      ensures NodeIn(after, end, g, j)
    {
      SpliceAt(mem, after, start, base, end, f, lo, hi, mid, j);
    }
    SpliceEnds(mem, after, start, base, end, f, lo, hi, mid);
  }

  lemma SpliceEnds(mem: map<int, Link>, after: map<int, Link>, start: int, base: int, end: int,
                   f: seq<Chunk>, lo: nat, hi: nat, mid: seq<Chunk>)
    requires Separate(start, base, end, f) && ListIn(mem, start, end, f) && lo <= hi <= |f|
    requires SortedFree(base, end, Spliced(f, lo, hi, mid)) && Rewritten(mem, after, start, end, f, lo, hi, mid)
    ensures start in after && after[start] == Link(Next(Spliced(f, lo, hi, mid), 0, end), 0)
    ensures end in after && after[end] == Link(0, 0)
  {
    var g := Spliced(f, lo, hi, mid);
    assert mid != [] ==> g[lo] == mid[0] && Sound(base, end, g[lo]);
    assert lo > 0 ==> Sound(base, end, f[lo - 1]) && g[0] == f[0];
    assert lo == 0 && mid == [] && hi < |f| ==> g[0] == f[hi];
  }

  lemma SpliceAt(mem: map<int, Link>, after: map<int, Link>, start: int, base: int, end: int,
                 f: seq<Chunk>, lo: nat, hi: nat, mid: seq<Chunk>, j: int)
    requires Separate(start, base, end, f) && ListIn(mem, start, end, f) && lo <= hi <= |f|
    requires SortedFree(base, end, Spliced(f, lo, hi, mid)) && Rewritten(mem, after, start, end, f, lo, hi, mid)
    requires 0 <= j < |Spliced(f, lo, hi, mid)|
    ensures NodeIn(after, end, Spliced(f, lo, hi, mid), j)
  {
    hide Aligned, ListIn;
    var g := Spliced(f, lo, hi, mid);
    var m := if j < lo then j else hi + j - lo - |mid|;
    if j < lo || j >= lo + |mid| {
      assert g[j] == f[m];
      NodeAt(mem, start, end, f, m);
      Sooner(base, end, g, lo, j, |mid|);
      assert Sound(base, end, g[j]);
      assert j + 1 < |g| && j + 1 != lo ==> g[j + 1] == f[m + 1];
      assert j + 1 == |g| ==> m + 1 == |f| || j + 1 == lo;
    } else {
      assert g[j] == mid[0];
      assert hi < |f| ==> g[j + 1] == f[hi];
    }
  }

  // Nodes of a sorted list have distinct addresses.
  lemma Sooner(base: int, end: int, g: seq<Chunk>, lo: nat, j: nat, n: nat)
    requires SortedFree(base, end, g) && j < |g| && lo + n <= |g|
    ensures lo > 0 && j != lo - 1 ==> g[j].addr != g[lo - 1].addr
    ensures n > 0 && j != lo ==> g[j].addr != g[lo].addr
  {
    assert forall k :: 0 <= k < |g| ==> Sound(base, end, g[k]);
    if lo > 0 {
      assert j < lo - 1 ==> EndOf(g[j]) < g[lo - 1].addr;
      assert j > lo - 1 ==> EndOf(g[lo - 1]) < g[j].addr;
    }
    if n > 0 {
      assert j < lo ==> EndOf(g[j]) < g[lo].addr;
      assert j > lo ==> EndOf(g[lo]) < g[j].addr;
    }
  }

  lemma InitialList(mem: map<int, Link>, start: int, base: int, end: int)
    requires start in mem && base in mem && end in mem && base != end
    requires mem[start] == Link(base, 0) && mem[base] == Link(end, end - base) && mem[end] == Link(0, 0)
    ensures ListIn(mem, start, end, [Chunk(base, end - base)])
  {
    assert NodeIn(mem, end, [Chunk(base, end - base)], 0);
  }

  // ---- the allocator ---------------------------------------------------------------

  class Heap {
    const ucHeap: int
    const totalSize: int   // configTOTAL_HEAP_SIZE
    const xStart: int      // address of the list head, outside the heap

    var mem: map<int, Link>
    var pxEnd: int         // 0 until the first allocation
    var freeBytes: int     // xFreeBytesRemaining
    var minEver: int       // xMinimumEverFreeBytesRemaining
    var mallocs: int       // xNumberOfSuccessfulAllocations
    var frees: int         // xNumberOfSuccessfulFrees
    var allocatedBit: int  // xBlockAllocatedBit

    ghost var free: seq<Chunk>
    ghost var live: map<int, int>    // block address to block size
    ghost var history: seq<int>      // values freeBytes has had since initialisation

    function Base(): int {
      if ucHeap % 8 != 0 then (ucHeap + 7) / 8 * 8 else ucHeap
    }

    function TheEnd(): int {
      (Base() + (totalSize - (Base() - ucHeap)) - HEADER) / 8 * 8
    }

    /** Heap placement the kernel guarantees: a positive address range below the top bit, with room
        for one block, and the list head elsewhere. */
    predicate Placed() {
      && ucHeap > 0 && totalSize >= 64 && ucHeap + totalSize < BIT
      && xStart > 0 && (xStart + HEADER <= ucHeap || ucHeap + totalSize <= xStart)
    }

    lemma Geometry()
      requires Placed()
      ensures Sound(Base(), TheEnd(), Chunk(Base(), TheEnd() - Base()))
      ensures ucHeap <= Base() && TheEnd() + HEADER <= ucHeap + totalSize
    {
    }

    ghost predicate Started()
      reads this
    {
      && pxEnd == TheEnd() && allocatedBit == BIT
      && Tiled(Base(), pxEnd, free, live)
      && ListIn(mem, xStart, pxEnd, free)
      && HeadersIn(mem, live)
      && freeBytes == Sum(free)
      && IsLeast(minEver, history) && |history| > 0 && history[|history| - 1] == freeBytes
      && mallocs - frees == |live|
    }

    ghost predicate Valid()
      reads this
    {
      && Placed()
      && if pxEnd == 0 then free == [] && live == map[] && history == [] && mallocs == frees == freeBytes == 0 && allocatedBit == 0
         else Started()
    }

    /** The free list as the next call sees it: before the first allocation, the whole heap. */
    ghost function FreeList(): seq<Chunk>
      reads this
    {
      if pxEnd == 0 then [Chunk(Base(), TheEnd() - Base())] else free
    }

    /** Free bytes, minimum and history as the next allocation starts from them. */
    ghost function StartBytes(): int
      reads this
    {
      if pxEnd == 0 then TheEnd() - Base() else freeBytes
    }

    ghost function StartMin(): int
      reads this
    {
      if pxEnd == 0 then TheEnd() - Base() else minEver
    }

    ghost function StartHistory(): seq<int>
      reads this
    {
      if pxEnd == 0 then [TheEnd() - Base()] else history
    }

    /** initMemoryManager */
    constructor (ucHeap: int, totalSize: int, xStart: int)
      requires ucHeap > 0 && totalSize >= 64 && ucHeap + totalSize < BIT
      requires xStart > 0 && (xStart + HEADER <= ucHeap || ucHeap + totalSize <= xStart)
      ensures Valid() && this.ucHeap == ucHeap && this.totalSize == totalSize && live == map[]
      ensures pxEnd == 0 && mallocs == frees == 0
    {
      this.ucHeap, this.totalSize, this.xStart := ucHeap, totalSize, xStart;
      mem, pxEnd, freeBytes, minEver, mallocs, frees, allocatedBit := map[], 0, 0, 0, 0, 0, 0;
      free, live, history := [], map[], [];
    }

    /** prvHeapInit */
    method HeapInit()
      requires Valid() && pxEnd == 0
      modifies this
      ensures Valid() && pxEnd != 0 && free == old(FreeList()) && live == map[]
      ensures mallocs == old(mallocs) && frees == old(frees)
      ensures freeBytes == old(StartBytes()) && minEver == old(StartMin()) && history == old(StartHistory())
      ensures forall a :: a in mem && (a !in old(mem) || mem[a] != old(mem)[a]) ==> a == xStart || a == Base() || a == pxEnd
    {
      hide Tiled, Sum, Sound, Aligned, ListIn, Base, TheEnd;
      Geometry();
      Span();
      var aligned, address := AlignedBounds();
      mem := mem[xStart := Link(aligned, 0)];
      pxEnd := address;
      mem := mem[pxEnd := Link(0, 0)];
      mem := mem[aligned := Link(pxEnd, address - aligned)];
      minEver := address - aligned;
      freeBytes := address - aligned;
      allocatedBit := BIT;
      free, history := [Chunk(aligned, address - aligned)], [freeBytes];
      InitialTiles(Base(), pxEnd);
      SumOne(free[0]);
      InitialList(mem, xStart, aligned, pxEnd);
    }

    /** The aligned start of the heap and the place of the end marker (lines 180-200). */
    method AlignedBounds() returns (aligned: int, end: int)
      requires Placed()
      ensures aligned % 8 == 0 && ucHeap <= aligned < ucHeap + 8
      ensures end % 8 == 0 && end + HEADER <= ucHeap + totalSize < end + HEADER + 8
      ensures aligned == Base() && end == TheEnd()
    {
      var total := totalSize;
      aligned := ucHeap;
      if aligned % 8 != 0 {
        aligned := (aligned + 7) / 8 * 8;
        total := total - (aligned - ucHeap);
      }
      end := (aligned + total - HEADER) / 8 * 8;
    }

    lemma Span()
      requires Placed()
      ensures 0 < Base() < TheEnd() && (xStart + HEADER <= Base() || TheEnd() + HEADER <= xStart)
    {
    }

    /** prvInsertBlockIntoFreeList: the block at b, whose header already holds its size. */
    method InsertBlock(b: int) returns (ghost i: int)
      requires Separate(xStart, Base(), pxEnd, free) && ListIn(mem, xStart, pxEnd, free)
      requires b in mem && Sound(Base(), pxEnd, Chunk(b, mem[b].size))
      requires forall j :: 0 <= j < |free| ==> Apart(free[j], Chunk(b, mem[b].size))
      modifies this`mem, this`free
      ensures Insertable(Base(), pxEnd, old(free), Chunk(b, old(mem)[b].size), i)
      ensures free == Merged(old(free), Chunk(b, old(mem)[b].size), i)
      ensures ListIn(mem, xStart, pxEnd, free)
      ensures mem.Keys == old(mem).Keys
      ensures forall a :: a in mem && mem[a] != old(mem)[a] ==>
        a == xStart || a == b || OnList(old(free), a)
    {
      hide Aligned, ListIn, SortedFree;
      ghost var c := Chunk(b, mem[b].size);
      ghost var f := free;
      var at := xStart;
      i := 0;
      NodeAt(mem, xStart, pxEnd, f, i);
      while mem[at].next < b
        invariant mem == old(mem) && free == f
        invariant 0 <= i <= |f| && at == NodeBefore(xStart, f, i) && at in mem
        invariant mem[at] == Link(Next(f, i, pxEnd), SizeBefore(f, i))
        invariant forall j :: 0 <= j < i ==> f[j].addr < b
        decreases |f| - i
      {
        at := mem[at].next;
        i := i + 1;
        NodeAt(mem, xStart, pxEnd, f, i);
      }
      assert Insertable(Base(), pxEnd, f, c, i);
      LinkIn(at, b, f, c, i);
      assert i > 0 ==> OnList(f, f[i - 1].addr);
      free := Merged(f, c, i);
    }

    /** The headers on both sides of the insertion point. */
    lemma Around(m: map<int, Link>, f: seq<Chunk>, c: Chunk, i: int)
      requires Separate(xStart, Base(), pxEnd, f) && ListIn(m, xStart, pxEnd, f)
      requires Insertable(Base(), pxEnd, f, c, i)
      ensures 0 <= i <= |f| && 0 < c.size
      ensures NodeBefore(xStart, f, i) in m && m[NodeBefore(xStart, f, i)] == Link(Next(f, i, pxEnd), SizeBefore(f, i))
      ensures i < |f| ==> f[i].addr in m && m[f[i].addr] == Link(Next(f, i + 1, pxEnd), f[i].size)
      ensures i < |f| ==> EndOf(c) <= f[i].addr && f[i].addr < pxEnd
      ensures i > 0 ==> EndOf(f[i - 1]) <= c.addr && f[i - 1].addr < c.addr
      ensures i == 0 ==> xStart != c.addr
      ensures EndOf(c) <= pxEnd
    {
      hide Aligned, ListIn;
      NodeAt(m, xStart, pxEnd, f, i);
      if i > 0 { assert Sound(Base(), pxEnd, f[i - 1]); }
      if i < |f| { assert Sound(Base(), pxEnd, f[i]); }
      Neighbours(Base(), pxEnd, f, c, i);
    }

    /** The final headers, whichever sides were merged. */
    function Surgery(m0: map<int, Link>, f: seq<Chunk>, c: Chunk, i: int): map<int, Link>
      reads this
      requires 0 <= i <= |f|
    {
      var hi := if TouchesRight(f, c, i) then i + 1 else i;
      var x := Joined(f, c, i);
      var p := NodeBefore(xStart, f, i);
      if TouchesLeft(f, c, i) then m0[x.addr := Link(Next(f, hi, pxEnd), x.size)]
      else m0[x.addr := Link(Next(f, hi, pxEnd), x.size)][p := Link(x.addr, SizeBefore(f, i))]
    }

    lemma SurgeryRewrites(m0: map<int, Link>, m: map<int, Link>, f: seq<Chunk>, c: Chunk, i: int)
      requires Separate(xStart, Base(), pxEnd, f) && ListIn(m0, xStart, pxEnd, f)
      requires Insertable(Base(), pxEnd, f, c, i) && m == Surgery(m0, f, c, i)
      ensures
        var lo := if TouchesLeft(f, c, i) then i - 1 else i;
        var hi := if TouchesRight(f, c, i) then i + 1 else i;
        Rewritten(m0, m, xStart, pxEnd, f, lo, hi, [Joined(f, c, i)])
    {
      hide Aligned, ListIn;
      Around(m0, f, c, i);
      if TouchesLeft(f, c, i) {
        NodeAt(m0, xStart, pxEnd, f, i - 1);
        assert Sound(Base(), pxEnd, f[i - 1]);
        if i > 1 { assert EndOf(f[i - 2]) < f[i - 1].addr; assert Sound(Base(), pxEnd, f[i - 2]); }
      }
    }

    /** The pointer surgery of prvInsertBlockIntoFreeList (lines 234-261), after the walk. */
    method LinkIn(at: int, b: int, ghost f: seq<Chunk>, ghost c: Chunk, ghost i: int)
      requires Separate(xStart, Base(), pxEnd, f) && ListIn(mem, xStart, pxEnd, f)
      requires Insertable(Base(), pxEnd, f, c, i) && at == NodeBefore(xStart, f, i)
      requires b in mem && c == Chunk(b, mem[b].size)
      modifies this`mem
      ensures ListIn(mem, xStart, pxEnd, Merged(f, c, i))
      ensures mem.Keys == old(mem).Keys
      ensures forall a :: a in mem && a != at && a != b ==> mem[a] == old(mem)[a]
    {
      hide Aligned, ListIn, SortedFree, Insertable, Rewritten;
      ghost var m0 := mem;
      Around(m0, f, c, i);
      var m := mem;
      var block := b;
      if at + m[at].size == b {
        m := m[at := m[at].(size := m[at].size + m[b].size)];
        block := at;
      }
      var next := m[at].next;
      if block + m[block].size == next {
        if next != pxEnd {
          m := m[block := Link(m[next].next, m[block].size + m[next].size)];
        } else {
          m := m[block := m[block].(next := pxEnd)];
        }
      } else {
        m := m[block := m[block].(next := next)];
      }
      if at != block {
        m := m[at := m[at].(next := block)];
      }
      mem := m;
      ghost var lo: nat := if TouchesLeft(f, c, i) then i - 1 else i;
      ghost var hi: nat := if TouchesRight(f, c, i) then i + 1 else i;
      assert m == Surgery(m0, f, c, i);
      SurgeryRewrites(m0, m, f, c, i);
      MergedSorted(Base(), pxEnd, f, c, i);
      Splice(m0, mem, xStart, Base(), pxEnd, f, lo, hi, [Joined(f, c, i)]);
    }

    /** The first-fit walk of pvPortMalloc (lines 66-71). */
    method FindFit(wanted: int) returns (previous: int, block: int, ghost k: int)
      requires Separate(xStart, Base(), pxEnd, free) && ListIn(mem, xStart, pxEnd, free) && wanted > 0
      ensures 0 <= k <= |free| && previous == NodeBefore(xStart, free, k) && block == Next(free, k, pxEnd)
      ensures forall i :: 0 <= i < k ==> free[i].size < wanted
      ensures k < |free| ==> free[k].size >= wanted
      ensures block == pxEnd <==> k == |free|
    {
      hide Aligned, ListIn;
      previous := xStart;
      k := 0;
      NodeAt(mem, xStart, pxEnd, free, 0);
      block := mem[xStart].next;
      EndNode(mem, xStart, pxEnd, free);
      while mem[block].size < wanted && mem[block].next != 0
        invariant 0 <= k <= |free| && previous == NodeBefore(xStart, free, k) && block == Next(free, k, pxEnd)
        invariant block in mem
        invariant forall i :: 0 <= i < k ==> free[i].size < wanted
        decreases |free| - k
      {
        NodeAt(mem, xStart, pxEnd, free, k);
        previous := block;
        block := mem[block].next;
        k := k + 1;
        NodeAt(mem, xStart, pxEnd, free, k);
      }
      NodeAt(mem, xStart, pxEnd, free, k);
      assert forall i :: 0 <= i < |free| ==> Sound(Base(), pxEnd, free[i]);
    }

    /** Taking a block off the free list (line 82). */
    method Unlink(previous: int, block: int, ghost k: nat)
      requires Separate(xStart, Base(), pxEnd, free) && ListIn(mem, xStart, pxEnd, free)
      requires k < |free| && previous == NodeBefore(xStart, free, k) && block == free[k].addr
      modifies this`mem, this`free
      ensures free == old(free)[..k] + old(free)[k + 1..]
      ensures Separate(xStart, Base(), pxEnd, free) && ListIn(mem, xStart, pxEnd, free)
      ensures mem.Keys == old(mem).Keys && block in mem
      ensures forall a :: a in mem && a != previous ==> mem[a] == old(mem)[a]
      ensures previous != block && mem[block].size == old(free)[k].size
    {
      hide Aligned, ListIn;
      ghost var f, m0 := free, mem;
      NodeAt(mem, xStart, pxEnd, f, k);
      assert Sound(Base(), pxEnd, f[k]);
      if k > 0 { assert EndOf(f[k - 1]) < f[k].addr && Sound(Base(), pxEnd, f[k - 1]); }
      mem := mem[previous := mem[previous].(next := mem[block].next)];
      free := f[..k] + f[k + 1..];
      RemoveSorted(Base(), pxEnd, f, k);
      assert Spliced(f, k, k + 1, []) == free;
      Splice(m0, mem, xStart, Base(), pxEnd, f, k, k + 1, []);
    }

    /** The remainder of a large chunk goes back to the free list (lines 91-99). */
    method SplitOff(block: int, wanted: int, ghost f: seq<Chunk>, ghost k: nat)
      requires Separate(xStart, Base(), pxEnd, f) && k < |f| && free == f[..k] + f[k + 1..]
      requires ListIn(mem, xStart, pxEnd, free)
      requires block == f[k].addr && block in mem && mem[block].size == f[k].size
      requires HEADER <= wanted && f[k].size - wanted > MINIMUM && Aligned(wanted)
      modifies this`mem, this`free
      ensures free == f[k := Chunk(block + wanted, f[k].size - wanted)]
      ensures ListIn(mem, xStart, pxEnd, free)
      ensures mem.Keys == old(mem).Keys + {block + wanted}
      ensures mem[block] == old(mem)[block].(size := wanted)
      ensures forall a :: a in old(mem) && mem[a] != old(mem)[a] ==>
        a == xStart || a == block || a == block + wanted || OnList(f, a)
    {
      hide ListIn, Aligned, SortedFree, Sound, Apart, Merged, OnList, Separate;
      ghost var g, m0 := free, mem;
      RemainderReady(xStart, Base(), pxEnd, f, k, wanted);
      var n := block + wanted;
      var junk := if n in mem then mem[n].next else 0;
      mem := mem[n := Link(junk, mem[block].size - wanted)];
      mem := mem[block := mem[block].(size := wanted)];
      ListKeeps(m0, mem, xStart, Base(), pxEnd, g);
      ghost var m1 := mem;
      ghost var i := InsertBlock(n);
      RemainderStays(Base(), pxEnd, f, k, wanted, i);
      assert mem[block] == m1[block];
    }

    /** Lines 82-100: the chosen block leaves the free list and a large remainder goes back. */
    method Detach(previous: int, block: int, wanted: int, ghost k: nat)
      requires Separate(xStart, Base(), pxEnd, free) && ListIn(mem, xStart, pxEnd, free)
      requires k < |free| && previous == NodeBefore(xStart, free, k) && block == free[k].addr
      requires HEADER <= wanted <= free[k].size && Aligned(wanted)
      modifies this`mem, this`free
      ensures free == TakeFree(old(free), k, wanted) && ListIn(mem, xStart, pxEnd, free)
      ensures block in mem && mem[block].size == BlockSize(old(free)[k].size, wanted)
      ensures old(mem).Keys <= mem.Keys
      ensures forall a :: a in mem && (a !in old(mem) || mem[a] != old(mem)[a]) ==>
        MayWrite(xStart, old(free), k, wanted, a)
    {
      ghost var f, m0 := free, mem;
      assert OnList(f, f[k].addr) && (k > 0 ==> OnList(f, f[k - 1].addr));
      hide ListIn, SortedFree, OnList, Aligned;
      Unlink(previous, block, k);
      if mem[block].size - wanted > MINIMUM {
        SplitOff(block, wanted, f, k);
      }
    }

    lemma Apartness()
      requires Placed() && Started()
      ensures Separate(xStart, Base(), pxEnd, free) && 0 < Base() < pxEnd < BIT
    {
      Geometry();
    }

    /** Lines 78-112: take the block, move the counters, mark it allocated. */
    method Carve(previous: int, block: int, wanted: int, ghost k: nat)
      requires Placed() && Started() && FirstFit(free, wanted, k)
      requires previous == NodeBefore(xStart, free, k) && block == free[k].addr
      requires HEADER <= wanted && Aligned(wanted)
      modifies this
      ensures Valid() && pxEnd == old(pxEnd)
      ensures free == TakeFree(old(free), k, wanted)
      ensures live == old(live)[block := BlockSize(old(free)[k].size, wanted)]
      ensures mallocs == old(mallocs) + 1 && frees == old(frees)
      ensures freeBytes == old(freeBytes) - live[block] && history == old(history) + [freeBytes]
      ensures minEver == if freeBytes < old(minEver) then freeBytes else old(minEver)
      ensures PayloadsUntouched(old(mem), mem, xStart, live)
    {
      hide ListIn, Tiled, Sum, MayWrite, TakeFree, BlockSize, IsLeast, PayloadsUntouched, HeadersIn, Aligned, Separate;
      ghost var f, l, m0 := free, live, mem;
      ghost var s := BlockSize(f[k].size, wanted);
      Apartness();
      TakeTiles(Base(), pxEnd, f, l, k, wanted);
      TakeSum(f, k, wanted);
      Detach(previous, block, wanted, k);
      freeBytes := freeBytes - mem[block].size;
      LeastAppend(minEver, history, freeBytes);
      if freeBytes < minEver {
        minEver := freeBytes;
      }
      AfterTake(m0, mem, xStart, Base(), pxEnd, f, l, k, wanted);
      mem := mem[block := Link(0, WithBit(mem[block].size))];
      mallocs := mallocs + 1;
      live, history := l[block := s], history + [freeBytes];
    }

    /** pvPortMalloc; 0 is NULL. */
    method Malloc(size: int) returns (r: int)
      requires Valid() && 0 <= size < WORD
      modifies this
      ensures Valid() && pxEnd != 0
      ensures Answer(old(FreeList()), old(live), size, r, free, live)
      ensures r == 0 ==> mallocs == old(mallocs) && frees == old(frees)
      ensures r == 0 ==> freeBytes == old(StartBytes()) && minEver == old(StartMin()) && history == old(StartHistory())
      ensures r != 0 ==> r - HEADER !in old(live) && size + HEADER <= Rounded(size) <= live[r - HEADER] <= Rounded(size) + MINIMUM
      ensures r != 0 ==> mallocs == old(mallocs) + 1 && frees == old(frees)
      ensures r != 0 ==> freeBytes == old(StartBytes()) - live[r - HEADER] && history == old(StartHistory()) + [freeBytes]
      ensures r != 0 ==> minEver == if freeBytes < old(StartMin()) then freeBytes else old(StartMin())
      ensures PayloadsUntouched(old(mem), mem, xStart, live)
    {
      hide ListIn, Tiled, Sum, TakeFree, IsLeast, HeadersIn, Aligned, Separate, TheEnd, Base, Rounded;
      ghost var m0 := mem;
      r := 0;
      if pxEnd == 0 {
        HeapInit();
      }
      ghost var m1, f := mem, free;
      assert f == old(FreeList());
      if 0 <= size < allocatedBit {
        var wanted := size;
        if wanted > 0 {
          RoundedExact(size);
          wanted := Rounded(size);
        }
        ChunksWithinTotal();
        if wanted > 0 && wanted <= freeBytes {
          Apartness();
          ghost var k;
          var previous, block;
          previous, block, k := FindFit(wanted);
          if block != pxEnd {
            TakeTiles(Base(), pxEnd, f, live, k, wanted);
            r := block + HEADER;
            Carve(previous, block, wanted, k);
            assert TakenAt(f, old(live), wanted, r, free, live, k);
          }
        }
      }
      AcrossInit(m0, m1);
    }

    /** Every free chunk is at most the total, so the total-free pre-check never changes the answer. */
    lemma ChunksWithinTotal()
      requires Started()
      ensures forall i :: 0 <= i < |free| ==> Base() <= free[i].addr && free[i].size <= freeBytes
    {
      forall i | 0 <= i < |free| ensures Base() <= free[i].addr && free[i].size <= freeBytes {
        assert forall j :: 0 <= j < |free| ==> Sound(Base(), pxEnd, free[j]);
        ChunkAtMostSum(free, i);
      }
    }

    /** Initialisation writes only the two list ends and the first header, so it too spares payloads. */
    lemma AcrossInit(m0: map<int, Link>, m1: map<int, Link>)
      requires Placed() && Started() && PayloadsUntouched(m1, mem, xStart, live)
      requires forall a :: a in m1 && (a !in m0 || m1[a] != m0[a]) ==> a == xStart || a == Base() || a == pxEnd
      ensures PayloadsUntouched(m0, mem, xStart, live)
    {
      hide Base, TheEnd, Aligned, ListIn, HeadersIn, Sum, IsLeast, SortedFree, Covered, FreeApartLive;
      forall b | b in live ensures b == Base() || Base() + HEADER <= b {
        assert Sound(Base(), pxEnd, Chunk(b, live[b]));
        if b != Base() { FirstTile(Base(), pxEnd, free, live, b); }
      }
    }

    lemma LiveHeader(a: int)
      requires Placed() && Started() && a in live
      ensures a in mem && mem[a] == Link(0, live[a] + BIT) && 0 < live[a] < BIT
      ensures a != xStart && a != pxEnd && !OnList(free, a)
      ensures Sound(Base(), pxEnd, Chunk(a, live[a]))
      ensures forall j :: 0 <= j < |free| ==> Apart(free[j], Chunk(a, live[a]))
    {
      Geometry();
      assert Sound(Base(), pxEnd, Chunk(a, live[a]));
      forall j | 0 <= j < |free| ensures Apart(free[j], Chunk(a, live[a])) && free[j].addr != a {
        assert Sound(Base(), pxEnd, free[j]);
      }
    }

    /** Lines 143-148: clear the bit, give the bytes back, relink the block. */
    method GiveBack(link: int)
      requires Placed() && Started() && link in live && mem[link] == Link(0, live[link] + BIT)
      modifies this
      ensures Started() && pxEnd == old(pxEnd)
      ensures live == old(live) - {link} && frees == old(frees) + 1 && mallocs == old(mallocs)
      ensures freeBytes == old(freeBytes) + old(live)[link] && history == old(history) + [freeBytes] && minEver == old(minEver)
      ensures Released(old(free), Chunk(link, old(live)[link]), free)
      ensures PayloadsUntouched(old(mem), mem, xStart, live)
    {
      hide ListIn, Tiled, Sum, IsLeast, HeadersIn, Aligned, Separate, TheEnd, Base, OnList, Released,
        PayloadsUntouched, Sound, Apart;
      ghost var l, m0 := live, mem;
      Apartness();
      LiveHeader(link);
      mem := mem[link := mem[link].(size := WithoutBit(mem[link].size))];
      freeBytes := freeBytes + mem[link].size;
      LeastKept(minEver, history, freeBytes);
      Relink(link, m0);
      frees := frees + 1;
      live, history := l - {link}, history + [freeBytes];
    }

    /** Line 147: a live block whose bit is cleared goes back to the free list. */
    method Relink(link: int, ghost m0: map<int, Link>)
      requires Separate(xStart, Base(), pxEnd, free) && Tiled(Base(), pxEnd, free, live) && ListIn(m0, xStart, pxEnd, free)
      requires HeadersIn(m0, live) && link in live && link in m0 && mem == m0[link := Link(0, live[link])]
      requires link != xStart && link != pxEnd && !OnList(free, link) && Sound(Base(), pxEnd, Chunk(link, live[link]))
      requires forall j :: 0 <= j < |free| ==> Apart(free[j], Chunk(link, live[link]))
      modifies this`mem, this`free
      ensures Released(old(free), Chunk(link, live[link]), free) && ListIn(mem, xStart, pxEnd, free)
      ensures Tiled(Base(), pxEnd, free, live - {link}) && Sum(free) == Sum(old(free)) + live[link]
      ensures HeadersIn(mem, live - {link}) && PayloadsUntouched(m0, mem, xStart, live - {link})
      ensures |live - {link}| == |live| - 1
    {
      hide ListIn, Tiled, Sum, Merged, HeadersIn, Aligned, Separate, TheEnd, Base, OnList, Insertable,
        PayloadsUntouched, Sound, Apart, IsPosition;
      ghost var f := free;
      ListKeeps(m0, mem, xStart, Base(), pxEnd, f);
      ghost var i := InsertBlock(link);
      AfterRelease(m0, mem, xStart, Base(), pxEnd, f, live, link, i);
      assert MergedAt(f, Chunk(link, live[link]), free, i);
    }

    /** The header at a does not say that a block is allocated there: the bit is clear, or not known yet
        before the first allocation, or the link is set. */
    predicate Unclaimed(a: int)
      reads this
    {
      a in mem && (allocatedBit == 0 || mem[a].size < allocatedBit || mem[a].next != 0)
    }

    /** vPortFree, given NULL, a live pointer, or one whose header does not claim an allocated block. */
    method Free(pv: int)
      requires Valid() && (pv == 0 || pv - HEADER in live || Unclaimed(pv - HEADER))
      modifies this
      ensures Valid() && pxEnd == old(pxEnd)
      ensures pv == 0 || pv - HEADER !in old(live) ==> free == old(free) && live == old(live) && mem == old(mem)
      ensures pv == 0 || pv - HEADER !in old(live) ==> mallocs == old(mallocs) && frees == old(frees)
      ensures pv == 0 || pv - HEADER !in old(live) ==>
        freeBytes == old(freeBytes) && history == old(history) && minEver == old(minEver)
      ensures pv != 0 && pv - HEADER in old(live) ==>
        live == old(live) - {pv - HEADER} && frees == old(frees) + 1 && mallocs == old(mallocs)
      ensures pv != 0 && pv - HEADER in old(live) ==> Released(old(free), Chunk(pv - HEADER, old(live)[pv - HEADER]), free)
      ensures pv != 0 && pv - HEADER in old(live) ==>
        freeBytes == old(freeBytes) + old(live)[pv - HEADER] && history == old(history) + [freeBytes] && minEver == old(minEver)
      ensures PayloadsUntouched(old(mem), mem, xStart, live)
    {
      hide ListIn, Tiled, Sum, IsLeast, HeadersIn, TheEnd, Base, OnList, Released, Sound, Apart;
      if pv != 0 {
        var link := pv - HEADER;
        if link in live { LiveHeader(link); }
        if allocatedBit != 0 && mem[link].size >= allocatedBit {
          if mem[link].next == 0 {
            GiveBack(link);
          }
        }
      }
    }
  }

  lemma AfterRelease(m0: map<int, Link>, m1: map<int, Link>, start: int, base: int, end: int,
                     f: seq<Chunk>, live: map<int, int>, a: int, i: int)
    requires Separate(start, base, end, f) && Tiled(base, end, f, live) && a in live && HeadersIn(m0, live)
    requires Insertable(base, end, f, Chunk(a, live[a]), i) && m1.Keys == m0.Keys
    requires forall x :: x in m1 && m1[x] != m0[x] ==> x == start || x == a || OnList(f, x)
    ensures IsPosition(f, Chunk(a, live[a]), i)
    ensures Tiled(base, end, Merged(f, Chunk(a, live[a]), i), live - {a})
    ensures Sum(Merged(f, Chunk(a, live[a]), i)) == Sum(f) + live[a]
    ensures HeadersIn(m1, live - {a}) && PayloadsUntouched(m0, m1, start, live - {a}) && |live - {a}| == |live| - 1
  {
    ReleaseTiles(base, end, f, live, a, i);
    MergedSum(f, Chunk(a, live[a]), i);
    var after := live - {a};
    forall b, x | b in after && (x == a || OnList(f, x))
      ensures x + HEADER <= b || b + after[b] <= x
    {
      assert Sound(base, end, Chunk(b, live[b])) && Sound(base, end, Chunk(a, live[a]));
      if x == a {
        assert Apart(Chunk(a, live[a]), Chunk(b, live[b]));
      } else {
        var j :| 0 <= j < |f| && f[j].addr == x;
        assert Apart(f[j], Chunk(b, live[b])) && Sound(base, end, f[j]);
      }
    }
    forall b | b in after ensures b in m1 && m1[b] == m0[b] {
      assert Sound(base, end, Chunk(b, live[b]));
    }
    assert live.Keys == after.Keys + {a};
  }

  /** Nothing but the block at the start of the heap begins in its first HEADER bytes. */
  lemma FirstTile(base: int, end: int, f: seq<Chunk>, live: map<int, int>, b: int)
    requires Tiled(base, end, f, live) && b in live && b != base
    ensures base + HEADER <= b
  {
    assert Sound(base, end, Chunk(b, live[b]));
    if InFree(f, base) {
      var i :| 0 <= i < |f| && f[i].addr <= base < EndOf(f[i]);
      assert Sound(base, end, f[i]) && Apart(f[i], Chunk(b, live[b]));
    } else {
      var a :| a in live && a <= base < a + live[a];
      assert Sound(base, end, Chunk(a, live[a])) && Apart(Chunk(a, live[a]), Chunk(b, live[b]));
    }
  }

  /** Marking the detached block allocated leaves list and headers right, and payloads alone. */
  lemma AfterTake(m0: map<int, Link>, m1: map<int, Link>, start: int, base: int, end: int,
                  f: seq<Chunk>, live: map<int, int>, k: nat, wanted: int)
    requires Separate(start, base, end, f) && Tiled(base, end, f, live) && k < |f| && end < BIT
    requires HEADER <= wanted <= f[k].size && HeadersIn(m0, live)
    requires ListIn(m1, start, end, TakeFree(f, k, wanted))
    requires m0.Keys <= m1.Keys
    requires forall a :: a in m1 && (a !in m0 || m1[a] != m0[a]) ==> MayWrite(start, f, k, wanted, a)
    requires f[k].addr in m1 && m1[f[k].addr].size == BlockSize(f[k].size, wanted)
    ensures
      var m := m1[f[k].addr := Link(0, WithBit(m1[f[k].addr].size))];
      var after := live[f[k].addr := BlockSize(f[k].size, wanted)];
      && ListIn(m, start, end, TakeFree(f, k, wanted))
      && HeadersIn(m, after)
      && PayloadsUntouched(m0, m, start, after)
      && |after| == |live| + 1
  {
    TakeAway(start, base, end, f, live, k, wanted);
    hide ListIn, Tiled, MayWrite, TakeFree, BlockSize, Separate, OnList;
    var m := m1[f[k].addr := Link(0, WithBit(m1[f[k].addr].size))];
    ListKeeps(m1, m, start, base, end, TakeFree(f, k, wanted));
  }

  /** The headers malloc may write when it takes chunk k. */
  ghost predicate MayWrite(start: int, f: seq<Chunk>, k: nat, wanted: int, a: int)
    requires k < |f|
  {
    a == start || OnList(f, a) || (f[k].size - wanted > MINIMUM && a == f[k].addr + wanted)
  }

  /** `size |= xBlockAllocatedBit` on a 64-bit word. */
  function WithBit(x: int): int {
    if x < BIT then x + BIT else x
  }

  /** `size &= ~xBlockAllocatedBit`. */
  function WithoutBit(x: int): int {
    if x < BIT then x else x - BIT
  }

  /** The headers malloc may write are not live headers, and stay clear of every live payload. */
  lemma TakeAway(start: int, base: int, end: int, f: seq<Chunk>, live: map<int, int>, k: nat, wanted: int)
    requires Separate(start, base, end, f) && Tiled(base, end, f, live) && k < |f|
    requires HEADER <= wanted <= f[k].size
    ensures f[k].addr != start && f[k].addr != end && 0 < BlockSize(f[k].size, wanted) < end
    ensures MayWrite(start, f, k, wanted, f[k].addr)
    ensures !OnList(TakeFree(f, k, wanted), f[k].addr)
    ensures f[k].addr !in live && forall b :: b in live ==> !MayWrite(start, f, k, wanted, b)
    ensures forall a, b :: b in live && a != start && MayWrite(start, f, k, wanted, a) ==>
      a + HEADER <= b || b + live[b] <= a
    ensures forall a :: a != start && MayWrite(start, f, k, wanted, a) && a != f[k].addr ==>
      a + HEADER <= f[k].addr || f[k].addr + BlockSize(f[k].size, wanted) <= a
  {
    hide Aligned;
    assert Sound(base, end, f[k]);
    assert OnList(f, f[k].addr);
    forall j | 0 <= j < |TakeFree(f, k, wanted)| ensures TakeFree(f, k, wanted)[j].addr != f[k].addr {
      TakeMember(f, k, wanted, j);
      var m := TakeIndex(f, k, wanted, j);
      assert Sound(base, end, f[m]);
      assert m < k ==> EndOf(f[m]) < f[k].addr;
      assert m > k ==> EndOf(f[k]) < f[m].addr;
    }
    forall a, b | b in live && a != start && MayWrite(start, f, k, wanted, a)
      ensures a + HEADER <= b || b + live[b] <= a
    {
      var j := if OnList(f, a) then var j :| 0 <= j < |f| && f[j].addr == a; j else k;
      assert Apart(f[j], Chunk(b, live[b])) && Sound(base, end, f[j]);
    }
    forall b | b in live ensures !MayWrite(start, f, k, wanted, b) {
      assert Sound(base, end, Chunk(b, live[b]));
      assert b != start;
    }
    forall a | a != start && MayWrite(start, f, k, wanted, a) && a != f[k].addr
      ensures a + HEADER <= f[k].addr || f[k].addr + BlockSize(f[k].size, wanted) <= a
    {
      if OnList(f, a) {
        var j :| 0 <= j < |f| && f[j].addr == a;
        assert Sound(base, end, f[j]);
        assert j < k ==> EndOf(f[j]) < f[k].addr;
        assert j > k ==> EndOf(f[k]) < f[j].addr;
      }
    }
  }

  lemma EndNode(mem: map<int, Link>, start: int, end: int, f: seq<Chunk>)
    requires ListIn(mem, start, end, f)
    ensures end in mem && mem[end] == Link(0, 0)
    ensures forall i :: 0 <= i <= |f| ==> Next(f, i, end) in mem
  {
    forall i | 0 <= i <= |f| ensures Next(f, i, end) in mem { NodeAt(mem, start, end, f, i); }
  }

  /** Headers that are not on the list can change freely. */
  lemma ListKeeps(mem: map<int, Link>, after: map<int, Link>, start: int, base: int, end: int, f: seq<Chunk>)
    requires ListIn(mem, start, end, f)
    requires forall a :: a in mem && (a == start || a == end || OnList(f, a)) ==>
      a in after && after[a] == mem[a]
    ensures ListIn(after, start, end, f)
  {
    forall i | 0 <= i < |f| ensures NodeIn(after, end, f, i) {
      assert NodeIn(mem, end, f, i);
      assert OnList(f, f[i].addr);
    }
  }

  lemma RemoveSorted(base: int, end: int, f: seq<Chunk>, k: nat)
    requires SortedFree(base, end, f) && k < |f|
    ensures SortedFree(base, end, f[..k] + f[k + 1..])
  {
    var g := f[..k] + f[k + 1..];
    assert forall i :: 0 <= i < |g| ==> g[i] == f[if i < k then i else i + 1];
  }

  lemma RemainderSound(base: int, end: int, f: seq<Chunk>, k: nat, wanted: int)
    requires SortedFree(base, end, f) && k < |f| && HEADER <= wanted && f[k].size - wanted > MINIMUM && Aligned(wanted)
    ensures Sound(base, end, Chunk(f[k].addr + wanted, f[k].size - wanted))
  {
    assert Sound(base, end, f[k]);
  }

  /** The remainder is ready to be inserted into the list without chunk k. */
  lemma RemainderReady(start: int, base: int, end: int, f: seq<Chunk>, k: nat, wanted: int)
    requires Separate(start, base, end, f) && k < |f| && HEADER <= wanted && f[k].size - wanted > MINIMUM && Aligned(wanted)
    ensures
      var g, c := f[..k] + f[k + 1..], Chunk(f[k].addr + wanted, f[k].size - wanted);
      && SortedFree(base, end, f) && Separate(start, base, end, g) && Sound(base, end, c)
      && (forall j :: 0 <= j < |g| ==> Apart(g[j], c))
      && !OnList(g, f[k].addr) && !OnList(g, c.addr) && (forall a :: OnList(g, a) ==> OnList(f, a))
      && f[k].addr != start && f[k].addr != end && c.addr != start && c.addr != end
  {
    hide Aligned, OnList;
    RemainderSound(base, end, f, k, wanted);
    RemainderApart(base, end, f, k, wanted);
    assert Sound(base, end, f[k]);
  }

  lemma RemainderApart(base: int, end: int, f: seq<Chunk>, k: nat, wanted: int)
    requires SortedFree(base, end, f) && k < |f| && HEADER <= wanted && f[k].size - wanted > MINIMUM
    ensures
      var g := f[..k] + f[k + 1..];
      && SortedFree(base, end, g)
      && (forall j :: 0 <= j < |g| ==> Apart(g[j], Chunk(f[k].addr + wanted, f[k].size - wanted)))
      && !OnList(g, f[k].addr) && !OnList(g, f[k].addr + wanted)
      && forall a :: OnList(g, a) ==> OnList(f, a)
  {
    RemoveSorted(base, end, f, k);
    var g := f[..k] + f[k + 1..];
    forall j | 0 <= j < |g|
      ensures Apart(g[j], Chunk(f[k].addr + wanted, f[k].size - wanted))
      ensures g[j].addr != f[k].addr && g[j].addr != f[k].addr + wanted
      ensures OnList(f, g[j].addr)
    {
      var m := if j < k then j else j + 1;
      assert g[j] == f[m] && Sound(base, end, f[m]);
      assert m < k ==> EndOf(f[m]) < f[k].addr;
      assert m > k ==> EndOf(f[k]) < f[m].addr;
    }
  }

  /** The remainder takes the place of the chunk it was cut from: nothing merges. */
  lemma RemainderStays(base: int, end: int, f: seq<Chunk>, k: nat, wanted: int, i: int)
    requires SortedFree(base, end, f) && k < |f| && HEADER <= wanted && f[k].size - wanted > MINIMUM
    requires IsPosition(f[..k] + f[k + 1..], Chunk(f[k].addr + wanted, f[k].size - wanted), i)
    ensures Merged(f[..k] + f[k + 1..], Chunk(f[k].addr + wanted, f[k].size - wanted), i)
            == f[k := Chunk(f[k].addr + wanted, f[k].size - wanted)]
  {
    hide Aligned, Merged, Joined, SortedFree;
    var g, c := f[..k] + f[k + 1..], Chunk(f[k].addr + wanted, f[k].size - wanted);
    RemainderBetween(base, end, f, k, wanted);
    assert k < |g| ==> g[k] == f[k + 1];
    assert forall j :: 0 <= j < k ==> g[j] == f[j];
    assert i == k;
    NothingMerged(g, c, k);
    assert g[..k] == f[..k] && g[k..] == f[k + 1..];
  }

  lemma RemainderBetween(base: int, end: int, f: seq<Chunk>, k: nat, wanted: int)
    requires SortedFree(base, end, f) && k < |f| && HEADER <= wanted && f[k].size - wanted > MINIMUM
    ensures k + 1 < |f| ==> f[k].addr + f[k].size < f[k + 1].addr
    ensures forall j :: 0 <= j < k ==> f[j].addr < f[k].addr && EndOf(f[j]) < f[k].addr
  {
    hide Aligned;
    assert k + 1 < |f| ==> EndOf(f[k]) < f[k + 1].addr;
    forall j | 0 <= j < k ensures f[j].addr < f[k].addr && EndOf(f[j]) < f[k].addr {
      assert Sound(base, end, f[j]);
    }
  }

  lemma NothingMerged(g: seq<Chunk>, c: Chunk, i: int)
    requires 0 <= i <= |g| && !TouchesLeft(g, c, i) && !TouchesRight(g, c, i)
    ensures Merged(g, c, i) == g[..i] + [c] + g[i..]
  {
  }
}
