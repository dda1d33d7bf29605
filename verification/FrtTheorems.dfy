/** What clients of the heap_4 allocator can rely on, over every run. */
module FrtTheorems {
  import opened FrtLayout
  import opened FrtHeap

  /** A client writing anywhere inside a live payload cannot disturb the allocator. */
  method Scribble(h: Heap, b: int, a: int, junk: Link)
    requires h.Valid() && b in h.live && b + HEADER <= a && a + HEADER <= b + h.live[b]
    modifies h`mem
    ensures h.Valid()
    ensures h.mem == old(h.mem)[a := junk]
  {
    hide Tiled, Sum, IsLeast;
    ClearOfLists(h.Base(), h.pxEnd, h.free, h.live, b, a);
    h.Apartness();
    ghost var m := h.mem;
    h.mem := h.mem[a := junk];
    ListKeeps(m, h.mem, h.xStart, h.Base(), h.pxEnd, h.free);
  }

  lemma ClearOfLists(base: int, end: int, f: seq<Chunk>, live: map<int, int>, b: int, a: int)
    requires Tiled(base, end, f, live) && b in live && b + HEADER <= a && a + HEADER <= b + live[b]
    ensures base < a && a + HEADER <= end && a !in live && !OnList(f, a)
  {
    assert Sound(base, end, Chunk(b, live[b]));
    forall x | x in live ensures x != a {
      assert Sound(base, end, Chunk(x, live[x]));
      assert x != b ==> Apart(Chunk(x, live[x]), Chunk(b, live[b]));
    }
    forall j | 0 <= j < |f| ensures f[j].addr != a {
      assert Sound(base, end, f[j]) && Apart(f[j], Chunk(b, live[b]));
    }
  }

  /** malloc's answer is a function of the free list and the request. */
  lemma AnswerUnique(f: seq<Chunk>, live: map<int, int>, size: int,
                     r: int, g: seq<Chunk>, m: map<int, int>, s: int, h: seq<Chunk>, n: map<int, int>)
    requires Answer(f, live, size, r, g, m) && Answer(f, live, size, s, h, n)
    ensures r == s && g == h && m == n
  {
    hide Rounded, TakeFree, BlockSize;
    if r != 0 {
      var j :| TakenAt(f, live, Rounded(size), r, g, m, j);
      var k :| TakenAt(f, live, Rounded(size), s, h, n, k);
      assert j == k;
    }
  }

  /** The bytes a request takes: two 8-byte words of header and the payload, rounded up to 8. */
  function Need(size: int): (w: int)
    ensures w % 8 == 0 && size + 16 <= w < size + 24
  {
    (size + 23) / 8 * 8
  }

  lemma RoundedIsNeed(size: int)
    requires 0 < size < 0x8000_0000_0000_0000
    ensures Rounded(size) == Need(size)
  {
  }

  /** Chunk k, the first that is large enough, gives exactly the bytes needed and keeps the rest if that
      is more than 32 bytes; otherwise it is handed out whole. */
  ghost predicate CutFrom(f: seq<Chunk>, live: map<int, int>, size: int, r: int, g: seq<Chunk>, m: map<int, int>, k: int) {
    && 0 <= k < |f| && r == f[k].addr + 16 && f[k].size >= Need(size)
    && (forall i :: 0 <= i < k ==> f[i].size < Need(size))
    && (f[k].size - Need(size) > 32 ==>
          m == live[r - 16 := Need(size)] && g == f[k := Chunk(r - 16 + Need(size), f[k].size - Need(size))])
    && (f[k].size - Need(size) <= 32 ==> m == live[r - 16 := f[k].size] && g == f[..k] + f[k + 1..])
  }

  /** malloc's answer in plain numbers. */
  lemma AnswerInNumbers(f: seq<Chunk>, live: map<int, int>, size: int, r: int, g: seq<Chunk>, m: map<int, int>)
    requires Answer(f, live, size, r, g, m) && 0 <= size
    ensures r == 0 <==> size == 0 || size >= 0x8000_0000_0000_0000 || forall i :: 0 <= i < |f| ==> f[i].size < Need(size)
    ensures r != 0 ==> exists k :: CutFrom(f, live, size, r, g, m, k)
  {
    hide Rounded, Need;
    if 0 < size < 0x8000_0000_0000_0000 { RoundedIsNeed(size); }
    if r != 0 {
      var k :| TakenAt(f, live, Rounded(size), r, g, m, k);
      assert CutFrom(f, live, size, r, g, m, k);
    }
  }

  lemma RoomAfterCut(f: seq<Chunk>, live: map<int, int>, size: int, r: int, g: seq<Chunk>, m: map<int, int>, k: int, c: int, more: int)
    requires CutFrom(f, live, size, r, g, m, k) && 0 <= c < |f| && size > 0 && more > 0
    requires f[c].size >= Need(size) + Need(more) + 32
    ensures exists i :: 0 <= i < |g| && g[i].size >= Need(more)
  {
    NeedPositive(size, more);
    if f[k].size - Need(size) > 32 {
      assert g[c].size >= Need(more);
    } else {
      assert c > k && g[c - 1] == f[c];
    }
  }

  /** A free chunk with room for two requests and 32 bytes more serves both, from any state of the heap. */
  method BothServed(h: Heap, a: int, b: int, ghost c: int) returns (p: int, q: int)
    requires h.Valid() && 0 < a < 0x8000_0000_0000_0000 && 0 < b < 0x8000_0000_0000_0000
    requires 0 <= c < |h.FreeList()| && h.FreeList()[c].size >= Need(a) + Need(b) + 32
    modifies h
    ensures h.Valid() && p != 0 && q != 0 && p != q && p - 16 in h.live && q - 16 in h.live
  {
    hide Heap.Valid, Answer, Need;
    ghost var f, l := h.FreeList(), h.live;
    p := h.Malloc(a);
    AnswerInNumbers(f, l, a, p, h.free, h.live);
    NeedPositive(a, b);
    ghost var k :| CutFrom(f, l, a, p, h.free, h.live, k);
    RoomAfterCut(f, l, a, p, h.free, h.live, k, c, b);
    ghost var g, m := h.free, h.live;
    q := h.Malloc(b);
    AnswerInNumbers(g, m, b, q, h.free, h.live);
  }

  lemma NeedPositive(a: int, b: int)
    requires a > 0 && b > 0
    ensures Need(a) > 0 && Need(b) > 0
  {
  }

  /** History independence of the answers: two heaps in the same place with the same live blocks,
      whatever calls led there, return the same pointer and stay equal. */
  method SameAnswer(g: Heap, h: Heap, size: int) returns (r: int, s: int)
    requires g != h && g.Valid() && h.Valid() && 0 <= size < WORD
    requires g.ucHeap == h.ucHeap && g.totalSize == h.totalSize && g.live == h.live
    modifies g, h
    ensures r == s && g.Valid() && h.Valid() && g.live == h.live && g.free == h.free
  {
    hide Tiled, ListIn, HeadersIn, Sum, IsLeast, Rounded, PayloadsUntouched, Answer;
    SameFreeList(g, h);
    ghost var f := g.FreeList();
    r := g.Malloc(size);
    s := h.Malloc(size);
    AnswerUnique(f, old(g.live), size, r, g.free, g.live, s, h.free, h.live);
  }

  lemma SameFreeList(g: Heap, h: Heap)
    requires g.Valid() && h.Valid() && g.live == h.live
    requires g.ucHeap == h.ucHeap && g.totalSize == h.totalSize
    ensures g.FreeList() == h.FreeList()
  {
    hide Tiled, ListIn, HeadersIn, Sum, IsLeast;
    SamePlace(g, h);
    TiledList(g);
    TiledList(h);
    FreeListDetermined(g.Base(), g.TheEnd(), g.FreeList(), h.FreeList(), g.live);
  }

  lemma SamePlace(g: Heap, h: Heap)
    requires g.ucHeap == h.ucHeap && g.totalSize == h.totalSize
    ensures g.Base() == h.Base() && g.TheEnd() == h.TheEnd()
  {
  }

  lemma TiledList(h: Heap)
    requires h.Valid()
    ensures Tiled(h.Base(), h.TheEnd(), h.FreeList(), h.live)
  {
    h.Geometry();
    if h.pxEnd == 0 { InitialTiles(h.Base(), h.TheEnd()); }
  }

  /** Freeing every block, in any order, gives back the single initial chunk. */
  method FreeAll(h: Heap, order: seq<int>)
    requires h.Valid() && h.pxEnd != 0
    requires h.live.Keys == set a | a in order
    requires forall i, j :: 0 <= i < j < |order| ==> order[i] != order[j]
    modifies h
    ensures h.Valid() && h.live == map[] && h.free == [Chunk(h.Base(), h.TheEnd() - h.Base())]
    ensures h.freeBytes == h.TheEnd() - h.Base() && h.mallocs == h.frees
  {
    hide Heap.Valid;
    assert order[0..] == order;
    for i := 0 to |order|
      invariant h.Valid() && h.pxEnd != 0
      invariant h.live.Keys == set a | a in order[i..]
    {
      ghost var rest := order[i + 1..];
      assert order[i..] == [order[i]] + rest;
      assert order[i] !in rest;
      FreeOne(h, order[i]);
    }
    assert order[|order|..] == [];
    AllFreed(h);
  }

  method FreeOne(h: Heap, b: int)
    requires h.Valid() && h.pxEnd != 0 && b in h.live
    modifies h
    ensures h.Valid() && h.pxEnd != 0 && h.live == old(h.live) - {b}
  {
    hide Tiled, ListIn, HeadersIn, IsLeast, Released, PayloadsUntouched, Aligned, Sum, Sound, Apart, OnList;
    h.Apartness();
    h.LiveHeader(b);
    h.Free(b + HEADER);
  }

  lemma AllFreed(h: Heap)
    requires h.Valid() && h.pxEnd != 0 && h.live.Keys == {}
    ensures h.live == map[] && h.free == [Chunk(h.Base(), h.TheEnd() - h.Base())]
    ensures h.freeBytes == h.TheEnd() - h.Base() && h.mallocs == h.frees
  {
    hide Tiled, ListIn, HeadersIn, IsLeast, Aligned;
    h.Geometry();
    assert |h.live| == |h.live.Keys|;
    EmptyHeapIsOneChunk(h.Base(), h.TheEnd(), h.free);
    SumOne(h.free[0]);
  }

  // ---- accounting over a run ---------------------------------------------------------

  /** What a client does: ask for a block, or free a pointer if it holds it. */
  datatype Call = Ask(size: int) | Drop(pv: int)

  datatype HeapState = HeapState(free: seq<Chunk>, live: map<int, int>)

  ghost predicate CallStep(s: HeapState, c: Call, t: HeapState) {
    match c
    case Ask(size) => exists r :: Answer(s.free, s.live, size, r, t.free, t.live)
    case Drop(pv) =>
      if pv - HEADER in s.live then
        t.live == s.live - {pv - HEADER} && Released(s.free, Chunk(pv - HEADER, s.live[pv - HEADER]), t.free)
      else t == s
  }

  /** The free bytes in each state. */
  function FreeBytes(ss: seq<HeapState>): seq<int> {
    seq(|ss|, i requires 0 <= i < |ss| => Sum(ss[i].free))
  }

  ghost predicate Calls(ss: seq<HeapState>, calls: seq<Call>) {
    |ss| == |calls| + 1 && forall i :: 0 <= i < |calls| ==> CallStep(ss[i], calls[i], ss[i + 1])
  }

  ghost function View(h: Heap): HeapState
    reads h
  {
    HeapState(h.FreeList(), h.live)
  }

  /** The pointers a client holds. */
  ghost function Pointers(live: map<int, int>): set<int> { set a | a in live :: a + HEADER }

  lemma PointersAdd(live: map<int, int>, a: int, size: int)
    ensures Pointers(live[a := size]) == Pointers(live) + {a + HEADER}
  {
    var l := live[a := size];
    assert a in l && forall x :: x in l <==> x in live || x == a;
    forall p ensures p in Pointers(l) <==> p in Pointers(live) + {a + HEADER} {
      assert p in Pointers(l) <==> p - HEADER in l;
      assert p in Pointers(live) <==> p - HEADER in live;
    }
  }

  lemma PointersDrop(live: map<int, int>, a: int)
    ensures Pointers(live - {a}) == Pointers(live) - {a + HEADER}
  {
    assert forall x :: x in live - {a} <==> x in live && x != a;
  }

  method Perform(h: Heap, c: Call, held: set<int>) returns (now: set<int>)
    requires h.Valid() && held == Pointers(h.live) && (c.Ask? ==> 0 <= c.size < WORD)
    modifies h
    ensures h.Valid() && now == Pointers(h.live)
    ensures CallStep(old(View(h)), c, View(h))
    ensures h.StartMin() == if h.StartBytes() < old(h.StartMin()) then h.StartBytes() else old(h.StartMin())
    ensures h.pxEnd != 0 <==> old(h.pxEnd) != 0 || c.Ask?
  {
    hide Heap.Valid, Answer, Released;
    StartOrder(h);
    now := held;
    match c {
      case Ask(size) =>
        ghost var l := h.live;
        var r := h.Malloc(size);
        AnswerLive(old(h.FreeList()), l, size, r, h.free, h.live);
        if r != 0 {
          now := now + {r};
          PointersAdd(l, r - HEADER, h.live[r - HEADER]);
        }
      case Drop(pv) =>
        if pv in held {
          DropOne(h, pv);
          now := now - {pv};
        }
    }
  }

  lemma AnswerLive(f: seq<Chunk>, live: map<int, int>, size: int, r: int, g: seq<Chunk>, m: map<int, int>)
    requires Answer(f, live, size, r, g, m)
    ensures r == 0 ==> m == live
    ensures r != 0 ==> r - HEADER in m && m == live[r - HEADER := m[r - HEADER]]
  {
    hide Rounded, TakeFree, BlockSize, FirstFit;
  }

  method DropOne(h: Heap, pv: int)
    requires h.Valid() && pv in Pointers(h.live)
    modifies h
    ensures h.Valid() && Pointers(h.live) == old(Pointers(h.live)) - {pv}
    ensures pv - HEADER in old(h.live) && CallStep(old(View(h)), Drop(pv), View(h))
    ensures h.StartMin() == old(h.StartMin()) && h.StartBytes() >= old(h.StartBytes()) && h.pxEnd == old(h.pxEnd) != 0
  {
    hide Tiled, ListIn, HeadersIn, Sum, IsLeast, PayloadsUntouched, Released, Sound, Apart, OnList;
    ghost var l := h.live;
    h.Apartness();
    h.LiveHeader(pv - HEADER);
    h.Free(pv);
    PointersDrop(l, pv - HEADER);
  }

  lemma StartOrder(h: Heap)
    requires h.Valid()
    ensures h.StartMin() <= h.StartBytes() && h.StartBytes() == Sum(h.FreeList())
  {
    hide Tiled, ListIn, HeadersIn;
    if h.pxEnd == 0 { SumOne(Chunk(h.Base(), h.TheEnd() - h.Base())); }
  }

  /** Over any run of calls on a new heap: every call is a step of the free list and the live blocks,
      the free bytes are always their sum, and once anything was asked for, the minimum-ever field is the
      least number of free bytes there has been. */
  method MinimumEverIsLeast(ucHeap: int, totalSize: int, xStart: int, calls: seq<Call>) returns (h: Heap, ghost ss: seq<HeapState>)
    requires ucHeap > 0 && totalSize >= 64 && ucHeap + totalSize < BIT
    requires xStart > 0 && (xStart + HEADER <= ucHeap || ucHeap + totalSize <= xStart)
    requires forall i :: 0 <= i < |calls| && calls[i].Ask? ==> 0 <= calls[i].size < WORD
    ensures h.Valid() && Calls(ss, calls)
    ensures ss[0] == HeapState([Chunk(h.Base(), h.TheEnd() - h.Base())], map[]) && ss[|calls|] == View(h)
    ensures h.pxEnd != 0 <==> exists i :: 0 <= i < |calls| && calls[i].Ask?
    ensures h.pxEnd != 0 ==> h.freeBytes == Sum(ss[|calls|].free) && IsLeast(h.minEver, FreeBytes(ss))
  {
    hide Heap.Valid, Heap.FreeList, CallStep, IsLeast;
    h := new Heap(ucHeap, totalSize, xStart);
    ss := [View(h)];
    FirstState(h);
    var held: set<int> := {};
    assert held == Pointers(map[]);
    for i := 0 to |calls|
      invariant fresh(h) && h.Valid() && held == Pointers(h.live)
      invariant Calls(ss, calls[..i]) && ss[i] == View(h)
      invariant ss[0] == HeapState([Chunk(h.Base(), h.TheEnd() - h.Base())], map[])
      invariant h.pxEnd != 0 <==> exists j :: 0 <= j < i && calls[j].Ask?
      invariant IsLeast(h.StartMin(), FreeBytes(ss))
    {
      ghost var m := h.StartMin();
      held := Perform(h, calls[i], held);
      StartOrder(h);
      LeastAppend(m, FreeBytes(ss), h.StartBytes());
      ghost var ts := ss + [View(h)];
      assert FreeBytes(ts) == FreeBytes(ss) + [h.StartBytes()];
      ss := ts;
    }
    assert calls[..|calls|] == calls;
    StartOrder(h);
  }

  lemma FirstState(h: Heap)
    requires h.Valid() && h.pxEnd == 0
    ensures View(h) == HeapState([Chunk(h.Base(), h.TheEnd() - h.Base())], map[])
    ensures IsLeast(h.StartMin(), FreeBytes([View(h)])) && h.live == map[]
  {
    SumOne(Chunk(h.Base(), h.TheEnd() - h.Base()));
    assert FreeBytes([View(h)])[0] == h.StartMin();
  }
}
