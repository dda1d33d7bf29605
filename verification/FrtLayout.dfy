/** The heap_4 layout of Kernel/utils/memManagerFRT4.c as values: an address-sorted list of free
    chunks and a map of live blocks that together tile the heap. */
module FrtLayout {

  const HEADER := 16    // xHeapStructSize
  const MINIMUM := 32   // heapMINIMUM_BLOCK_SIZE

  datatype Chunk = Chunk(addr: int, size: int)

  function EndOf(c: Chunk): int { c.addr + c.size }

  predicate Aligned(x: int) { x % 8 == 0 }

  /** A block that lies in the heap and has room for its header. */
  predicate Sound(base: int, end: int, c: Chunk) {
    && base <= c.addr && EndOf(c) <= end && HEADER <= c.size
    && Aligned(c.addr) && Aligned(c.size)
  }

  predicate Apart(c: Chunk, d: Chunk) {
    EndOf(c) <= d.addr || EndOf(d) <= c.addr
  }

  /** Strictly sorted by address, and no two chunks touch. */
  ghost predicate SortedFree(base: int, end: int, f: seq<Chunk>) {
    && (forall i :: 0 <= i < |f| ==> Sound(base, end, f[i]))
    && (forall i, j :: 0 <= i < j < |f| ==> EndOf(f[i]) < f[j].addr)
  }

  ghost predicate LiveBlocks(base: int, end: int, live: map<int, int>) {
    && (forall a :: a in live ==> Sound(base, end, Chunk(a, live[a])))
    && (forall a, b :: a in live && b in live && a != b ==> Apart(Chunk(a, live[a]), Chunk(b, live[b])))
  }

  ghost predicate FreeApartLive(f: seq<Chunk>, live: map<int, int>) {
    forall i, a :: 0 <= i < |f| && a in live ==> Apart(f[i], Chunk(a, live[a]))
  }

  ghost predicate InFree(f: seq<Chunk>, p: int) {
    exists i :: 0 <= i < |f| && f[i].addr <= p < EndOf(f[i])
  }

  ghost predicate InLive(live: map<int, int>, p: int) {
    exists a :: a in live && a <= p < a + live[a]
  }

  ghost predicate Covered(base: int, end: int, f: seq<Chunk>, live: map<int, int>) {
    forall p :: base <= p < end ==> InFree(f, p) || InLive(live, p)
  }

  /** The heap from base to end is exactly tiled by free chunks and live blocks. */
  ghost predicate Tiled(base: int, end: int, f: seq<Chunk>, live: map<int, int>) {
    && SortedFree(base, end, f)
    && LiveBlocks(base, end, live)
    && FreeApartLive(f, live)
    && Covered(base, end, f, live)
  }

  // ---- free bytes ------------------------------------------------------------

  function Sum(f: seq<Chunk>): int {
    if f == [] then 0 else f[0].size + Sum(f[1..])
  }

  lemma {:induction false} SumConcat(f: seq<Chunk>, g: seq<Chunk>)
    ensures Sum(f + g) == Sum(f) + Sum(g)
  {
    if f == [] {
      assert f + g == g;
    } else {
      assert (f + g)[1..] == f[1..] + g;
      SumConcat(f[1..], g);
    }
  }

  lemma SumSplit(f: seq<Chunk>, k: int)
    requires 0 <= k < |f|
    ensures Sum(f) == Sum(f[..k]) + f[k].size + Sum(f[k + 1..])
  {
    assert f == f[..k] + ([f[k]] + f[k + 1..]);
    SumConcat(f[..k], [f[k]] + f[k + 1..]);
    SumConcat([f[k]], f[k + 1..]);
    assert Sum([f[k]]) == f[k].size by { assert [f[k]][1..] == []; }
  }

  lemma {:induction false} SumNonNegative(f: seq<Chunk>)
    requires forall i :: 0 <= i < |f| ==> f[i].size >= 0
    ensures Sum(f) >= 0
    decreases |f|
  {
    if f != [] { SumNonNegative(f[1..]); }
  }

  /** The pre-check on the total never rejects a request that some chunk can hold. */
  lemma ChunkAtMostSum(f: seq<Chunk>, k: int)
    requires 0 <= k < |f| && forall i :: 0 <= i < |f| ==> f[i].size >= 0
    ensures f[k].size <= Sum(f)
  {
    SumSplit(f, k);
    SumNonNegative(f[..k]);
    SumNonNegative(f[k + 1..]);
  }

  // ---- malloc: take the first fitting chunk ---------------------------------------

  /** Bytes the block gets from a chunk of the given size (line 86). */
  function BlockSize(chunk: int, wanted: int): int {
    if chunk - wanted > MINIMUM then wanted else chunk
  }

  /** Free list after taking wanted bytes from chunk k. */
  function TakeFree(f: seq<Chunk>, k: nat, wanted: int): seq<Chunk>
    requires k < |f|
  {
    if f[k].size - wanted > MINIMUM then f[k := Chunk(f[k].addr + wanted, f[k].size - wanted)]
    else f[..k] + f[k + 1..]
  }

  predicate FirstFit(f: seq<Chunk>, wanted: int, k: int) {
    && 0 <= k < |f| && f[k].size >= wanted
    && forall i :: 0 <= i < k ==> f[i].size < wanted
  }

  lemma TakeTiles(base: int, end: int, f: seq<Chunk>, live: map<int, int>, k: nat, wanted: int)
    requires Tiled(base, end, f, live) && k < |f|
    requires HEADER <= wanted <= f[k].size && Aligned(wanted)
    ensures f[k].addr !in live
    ensures Tiled(base, end, TakeFree(f, k, wanted), live[f[k].addr := BlockSize(f[k].size, wanted)])
  {
    var g := TakeFree(f, k, wanted);
    var a, s := f[k].addr, BlockSize(f[k].size, wanted);
    var after := live[a := s];
    assert a in live ==> Apart(f[k], Chunk(a, live[a]));
    TakeSorted(base, end, f, k, wanted);
    forall b | b in live ensures Apart(Chunk(a, s), Chunk(b, live[b])) {
      assert Apart(f[k], Chunk(b, live[b]));
    }
    forall i, b | 0 <= i < |g| && b in after ensures Apart(g[i], Chunk(b, after[b])) {
      TakeMember(f, k, wanted, i);
      var j := TakeIndex(f, k, wanted, i);
      if b != a { assert Apart(f[j], Chunk(b, live[b])); }
      else if j < k { assert EndOf(f[j]) < f[k].addr; }
      else if j > k { assert EndOf(f[k]) < f[j].addr; }
    }
    forall p | base <= p < end ensures InFree(g, p) || InLive(after, p) {
      TakeCovers(base, end, f, live, k, wanted, p);
    }
  }

  /** Index in f of the chunk that position i of the new list comes from. */
  function TakeIndex(f: seq<Chunk>, k: nat, wanted: int, i: nat): nat
    requires k < |f|
  {
    if f[k].size - wanted > MINIMUM || i < k then i else i + 1
  }

  lemma TakeMember(f: seq<Chunk>, k: nat, wanted: int, i: nat)
    requires k < |f| && i < |TakeFree(f, k, wanted)|
    ensures TakeIndex(f, k, wanted, i) < |f|
    ensures TakeFree(f, k, wanted)[i] ==
            if TakeIndex(f, k, wanted, i) == k then Chunk(f[k].addr + wanted, f[k].size - wanted)
            else f[TakeIndex(f, k, wanted, i)]
  {
  }

  lemma TakeSorted(base: int, end: int, f: seq<Chunk>, k: nat, wanted: int)
    requires SortedFree(base, end, f) && k < |f| && HEADER <= wanted <= f[k].size && Aligned(wanted)
    ensures SortedFree(base, end, TakeFree(f, k, wanted))
  {
    var g := TakeFree(f, k, wanted);
    forall i | 0 <= i < |g| ensures Sound(base, end, g[i]) {
      TakeMember(f, k, wanted, i);
      assert Sound(base, end, f[TakeIndex(f, k, wanted, i)]);
    }
    forall i, j | 0 <= i < j < |g| ensures EndOf(g[i]) < g[j].addr {
      TakeMember(f, k, wanted, i);
      TakeMember(f, k, wanted, j);
      assert EndOf(f[TakeIndex(f, k, wanted, i)]) < f[TakeIndex(f, k, wanted, j)].addr;
    }
  }

  lemma TakeCovers(base: int, end: int, f: seq<Chunk>, live: map<int, int>, k: nat, wanted: int, p: int)
    requires Covered(base, end, f, live) && k < |f| && f[k].addr !in live && base <= p < end
    requires HEADER <= wanted <= f[k].size
    ensures InFree(TakeFree(f, k, wanted), p) || InLive(live[f[k].addr := BlockSize(f[k].size, wanted)], p)
  {
    var g := TakeFree(f, k, wanted);
    var a, s := f[k].addr, BlockSize(f[k].size, wanted);
    var after := live[a := s];
    if InLive(live, p) {
      var b :| b in live && b <= p < b + live[b];
      assert b in after && after[b] == live[b];
    } else {
      var i :| 0 <= i < |f| && f[i].addr <= p < EndOf(f[i]);
      if i == k {
        if p < a + s { assert a in after; } else { assert g[k].addr <= p < EndOf(g[k]); }
      } else {
        var j := if f[k].size - wanted > MINIMUM || i < k then i else i - 1;
        assert g[j] == f[i];
      }
    }
  }

  // ---- free: insert a chunk, merging on both sides ------------------------------------

  /** i is where the walk of prvInsertBlockIntoFreeList stops. */
  predicate IsPosition(f: seq<Chunk>, c: Chunk, i: int) {
    && 0 <= i <= |f|
    && (forall j :: 0 <= j < i ==> f[j].addr < c.addr)
    && (i < |f| ==> c.addr <= f[i].addr)
  }

  predicate TouchesLeft(f: seq<Chunk>, c: Chunk, i: int)
    requires 0 <= i <= |f|
  {
    i > 0 && EndOf(f[i - 1]) == c.addr
  }

  predicate TouchesRight(f: seq<Chunk>, c: Chunk, i: int)
    requires 0 <= i <= |f|
  {
    i < |f| && EndOf(c) == f[i].addr
  }

  function Joined(f: seq<Chunk>, c: Chunk, i: int): Chunk
    requires 0 <= i <= |f|
  {
    var start := if TouchesLeft(f, c, i) then f[i - 1].addr else c.addr;
    var stop := if TouchesRight(f, c, i) then EndOf(f[i]) else EndOf(c);
    Chunk(start, stop - start)
  }

  /** The free list after inserting c at position i. */
  function Merged(f: seq<Chunk>, c: Chunk, i: int): seq<Chunk>
    requires 0 <= i <= |f|
  {
    f[..if TouchesLeft(f, c, i) then i - 1 else i]
    + [Joined(f, c, i)]
    + f[if TouchesRight(f, c, i) then i + 1 else i..]
  }

  ghost predicate Insertable(base: int, end: int, f: seq<Chunk>, c: Chunk, i: int) {
    && SortedFree(base, end, f) && Sound(base, end, c) && IsPosition(f, c, i)
    && forall j :: 0 <= j < |f| ==> Apart(f[j], c)
  }

  /** Position j of the merged list: before, at, or after the joined chunk. */
  lemma MergedMember(f: seq<Chunk>, c: Chunk, i: int, j: int)
    requires 0 <= i <= |f| && 0 <= j < |Merged(f, c, i)|
    ensures
      var lo := if TouchesLeft(f, c, i) then i - 1 else i;
      var hi := if TouchesRight(f, c, i) then i + 1 else i;
      && (j < lo ==> Merged(f, c, i)[j] == f[j])
      && (j == lo ==> Merged(f, c, i)[j] == Joined(f, c, i))
      && (j > lo ==> 0 <= hi + j - lo - 1 < |f| && Merged(f, c, i)[j] == f[hi + j - lo - 1])
  {
  }

  lemma Neighbours(base: int, end: int, f: seq<Chunk>, c: Chunk, i: int)
    requires Insertable(base, end, f, c, i)
    ensures forall j :: 0 <= j < i ==> EndOf(f[j]) <= c.addr
    ensures forall j :: i <= j < |f| ==> EndOf(c) <= f[j].addr
  {
    hide Aligned;
    forall j | 0 <= j < i ensures EndOf(f[j]) <= c.addr {
      assert Apart(f[j], c) && Sound(base, end, f[j]);
    }
    forall j | i <= j < |f| ensures EndOf(c) <= f[j].addr {
      assert Apart(f[i], c) && Sound(base, end, f[i]);
      assert i < j ==> EndOf(f[i]) < f[j].addr;
    }
  }

  lemma JoinedSound(base: int, end: int, f: seq<Chunk>, c: Chunk, i: int)
    requires Insertable(base, end, f, c, i)
    ensures Sound(base, end, Joined(f, c, i))
  {
    if i > 0 { assert Sound(base, end, f[i - 1]); }
    if i < |f| { assert Sound(base, end, f[i]); }
    AlignedAdd(c.addr, c.size);
    if TouchesLeft(f, c, i) { AlignedAdd(f[i - 1].size, c.size); }
    if TouchesRight(f, c, i) {
      AlignedAdd(c.size, f[i].size);
      if TouchesLeft(f, c, i) { AlignedAdd(f[i - 1].size, c.size + f[i].size); }
    }
  }

  lemma AlignedAdd(x: int, y: int)
    requires Aligned(x) && Aligned(y)
    ensures Aligned(x + y)
  {
  }

  lemma MergedSorted(base: int, end: int, f: seq<Chunk>, c: Chunk, i: int)
    requires Insertable(base, end, f, c, i)
    ensures SortedFree(base, end, Merged(f, c, i))
  {
    var g := Merged(f, c, i);
    JoinedSound(base, end, f, c, i);
    forall j | 0 <= j < |g| ensures Sound(base, end, g[j]) {
      MergedMember(f, c, i, j);
    }
    forall j, k | 0 <= j < k < |g| ensures EndOf(g[j]) < g[k].addr {
      MergedOrder(base, end, f, c, i, j, k);
    }
  }

  lemma MergedOrder(base: int, end: int, f: seq<Chunk>, c: Chunk, i: int, j: int, k: int)
    requires Insertable(base, end, f, c, i) && 0 <= j < k < |Merged(f, c, i)|
    ensures EndOf(Merged(f, c, i)[j]) < Merged(f, c, i)[k].addr
  {
    hide SortedFree, Merged;
    Neighbours(base, end, f, c, i);
    MergedMember(f, c, i, j);
    MergedMember(f, c, i, k);
    var lo := if TouchesLeft(f, c, i) then i - 1 else i;
    var hi := if TouchesRight(f, c, i) then i + 1 else i;
    if j < lo {
      if k < lo { Order(base, end, f, c, i, j, k); }
      else if k > lo { Order(base, end, f, c, i, j, hi + k - lo - 1); }
      else if TouchesLeft(f, c, i) { Order(base, end, f, c, i, j, i - 1); }
      else { EndsBefore(base, end, f, c, i, j); }
    } else {
      var m := hi + k - lo - 1;
      if j > lo { Order(base, end, f, c, i, hi + j - lo - 1, m); }
      else if TouchesRight(f, c, i) { Order(base, end, f, c, i, i, m); }
      else { StartsAfter(base, end, f, c, i, m); }
    }
  }

  lemma Order(base: int, end: int, f: seq<Chunk>, c: Chunk, i: int, j: int, k: int)
    requires Insertable(base, end, f, c, i) && 0 <= j < k < |f|
    ensures EndOf(f[j]) < f[k].addr
  {
  }

  // A chunk left of c that does not touch it ends strictly before it.
  lemma EndsBefore(base: int, end: int, f: seq<Chunk>, c: Chunk, i: int, j: int)
    requires Insertable(base, end, f, c, i) && 0 <= j < i && !TouchesLeft(f, c, i)
    ensures EndOf(f[j]) < c.addr
  {
    Neighbours(base, end, f, c, i);
    if j < i - 1 { assert EndOf(f[j]) < f[i - 1].addr; }
  }

  lemma StartsAfter(base: int, end: int, f: seq<Chunk>, c: Chunk, i: int, k: int)
    requires Insertable(base, end, f, c, i) && i <= k < |f| && !TouchesRight(f, c, i)
    ensures EndOf(c) < f[k].addr
  {
    Neighbours(base, end, f, c, i);
    if i < k { assert EndOf(f[i]) < f[k].addr; }
  }

  lemma MergedCovers(base: int, end: int, f: seq<Chunk>, c: Chunk, i: int, p: int)
    requires Insertable(base, end, f, c, i)
    requires InFree(f, p) || c.addr <= p < EndOf(c)
    ensures InFree(Merged(f, c, i), p)
  {
    hide Aligned, Sound, SortedFree;
    var g := Merged(f, c, i);
    var lo := if TouchesLeft(f, c, i) then i - 1 else i;
    var hi := if TouchesRight(f, c, i) then i + 1 else i;
    Neighbours(base, end, f, c, i);
    if c.addr <= p < EndOf(c) {
      JoinedHolds(base, end, f, c, i, p);
      assert g[lo] == Joined(f, c, i);
    } else {
      var j :| 0 <= j < |f| && f[j].addr <= p < EndOf(f[j]);
      if j < lo { assert g[j] == f[j]; }
      else if j >= hi { assert g[j - hi + lo + 1] == f[j]; }
      else { JoinedHolds(base, end, f, c, i, p); assert g[lo] == Joined(f, c, i); }
    }
  }

  lemma JoinedHolds(base: int, end: int, f: seq<Chunk>, c: Chunk, i: int, p: int)
    requires Insertable(base, end, f, c, i)
    requires
      || c.addr <= p < EndOf(c)
      || (TouchesLeft(f, c, i) && f[i - 1].addr <= p < EndOf(f[i - 1]))
      || (TouchesRight(f, c, i) && f[i].addr <= p < EndOf(f[i]))
    ensures Joined(f, c, i).addr <= p < EndOf(Joined(f, c, i))
  {
    Neighbours(base, end, f, c, i);
    if i > 0 { assert Sound(base, end, f[i - 1]); }
    if i < |f| { assert Sound(base, end, f[i]); }
  }

  lemma MergedApart(base: int, end: int, f: seq<Chunk>, c: Chunk, i: int, d: Chunk, j: int)
    requires Insertable(base, end, f, c, i) && 0 <= j < |Merged(f, c, i)|
    requires d.size > 0 && Apart(c, d) && forall m :: 0 <= m < |f| ==> Apart(f[m], d)
    ensures Apart(Merged(f, c, i)[j], d)
  {
    MergedMember(f, c, i, j);
    Neighbours(base, end, f, c, i);
  }

  /** Freeing a live block keeps the heap tiled. */
  lemma ReleaseTiles(base: int, end: int, f: seq<Chunk>, live: map<int, int>, a: int, i: int)
    requires Tiled(base, end, f, live) && a in live && IsPosition(f, Chunk(a, live[a]), i)
    ensures Insertable(base, end, f, Chunk(a, live[a]), i)
    ensures Tiled(base, end, Merged(f, Chunk(a, live[a]), i), live - {a})
  {
    var c, after := Chunk(a, live[a]), live - {a};
    var g := Merged(f, c, i);
    assert Insertable(base, end, f, c, i);
    MergedSorted(base, end, f, c, i);
    forall j, b | 0 <= j < |g| && b in after ensures Apart(g[j], Chunk(b, after[b])) {
      MergedApart(base, end, f, c, i, Chunk(b, live[b]), j);
    }
    forall p | base <= p < end ensures InFree(g, p) || InLive(after, p) {
      if InFree(f, p) || c.addr <= p < EndOf(c) {
        MergedCovers(base, end, f, c, i, p);
      } else {
        var b :| b in live && b <= p < b + live[b];
        assert b in after;
      }
    }
  }

  lemma MergedSum(f: seq<Chunk>, c: Chunk, i: int)
    requires 0 <= i <= |f|
    ensures Sum(Merged(f, c, i)) == Sum(f) + c.size
  {
    hide Sum;
    var lo := if TouchesLeft(f, c, i) then i - 1 else i;
    var hi := if TouchesRight(f, c, i) then i + 1 else i;
    var x := Joined(f, c, i);
    SumConcat(f[..lo] + [x], f[hi..]);
    SumConcat(f[..lo], [x]);
    SumOne(x);
    SumTail(f, lo);
    if TouchesLeft(f, c, i) { SumSplitAt(f, lo); }
    if TouchesRight(f, c, i) { SumSplitAt(f, i); }
  }

  lemma SumOne(c: Chunk)
    ensures Sum([c]) == c.size
  {
    assert [c][1..] == [];
  }

  lemma SumTail(f: seq<Chunk>, i: int)
    requires 0 <= i <= |f|
    ensures Sum(f) == Sum(f[..i]) + Sum(f[i..])
  {
    assert f == f[..i] + f[i..];
    SumConcat(f[..i], f[i..]);
  }

  lemma SumSplitAt(f: seq<Chunk>, i: int)
    requires 0 <= i < |f|
    ensures Sum(f[i..]) == f[i].size + Sum(f[i + 1..])
  {
    assert f[i..][1..] == f[i + 1..];
  }

  lemma TakeSum(f: seq<Chunk>, k: nat, wanted: int)
    requires k < |f|
    ensures Sum(TakeFree(f, k, wanted)) == Sum(f) - BlockSize(f[k].size, wanted)
  {
    SumSplit(f, k);
    var g := TakeFree(f, k, wanted);
    if f[k].size - wanted > MINIMUM {
      SumSplit(g, k);
      assert g[..k] == f[..k] && g[k + 1..] == f[k + 1..];
    } else {
      SumConcat(f[..k], f[k + 1..]);
    }
  }

  // ---- the free list is determined by the live blocks ----------------------------------------

  lemma FreeIffNotLive(base: int, end: int, f: seq<Chunk>, live: map<int, int>, p: int)
    requires Tiled(base, end, f, live) && base <= p < end
    ensures InFree(f, p) <==> !InLive(live, p)
  {
    forall i, a | 0 <= i < |f| && f[i].addr <= p < EndOf(f[i]) && a in live ensures !(a <= p < a + live[a]) {
      assert Apart(f[i], Chunk(a, live[a]));
    }
  }

  lemma StartsNoLater(base: int, end: int, f: seq<Chunk>, g: seq<Chunk>, live: map<int, int>, i: nat)
    requires Tiled(base, end, f, live) && Tiled(base, end, g, live)
    requires i < |f| && i <= |g| && f[..i] == g[..i]
    ensures i < |g| && g[i].addr <= f[i].addr
  {
    var p := f[i].addr;
    assert Sound(base, end, f[i]);
    assert InFree(f, p);
    FreeIffNotLive(base, end, f, live, p);
    FreeIffNotLive(base, end, g, live, p);
    var j :| 0 <= j < |g| && g[j].addr <= p < EndOf(g[j]);
    if j > i {
      assert EndOf(g[i]) < g[j].addr && Sound(base, end, g[i]);
    }
  }

  lemma EndsNoEarlier(base: int, end: int, f: seq<Chunk>, g: seq<Chunk>, live: map<int, int>, i: nat)
    requires Tiled(base, end, f, live) && Tiled(base, end, g, live)
    requires i < |f| && i < |g| && f[i].addr == g[i].addr
    ensures EndOf(f[i]) >= EndOf(g[i])
  {
    if EndOf(f[i]) < EndOf(g[i]) {
      var q := EndOf(f[i]);
      assert Sound(base, end, f[i]) && Sound(base, end, g[i]);
      assert InFree(g, q);
      FreeIffNotLive(base, end, f, live, q);
      FreeIffNotLive(base, end, g, live, q);
    }
  }

  lemma {:induction false} SamePrefix(base: int, end: int, f: seq<Chunk>, g: seq<Chunk>, live: map<int, int>, i: nat)
    requires Tiled(base, end, f, live) && Tiled(base, end, g, live) && i <= |f|
    ensures i <= |g| && f[..i] == g[..i]
    decreases i
  {
    if i > 0 {
      var k := i - 1;
      SamePrefix(base, end, f, g, live, k);
      StartsNoLater(base, end, f, g, live, k);
      StartsNoLater(base, end, g, f, live, k);
      EndsNoEarlier(base, end, f, g, live, k);
      EndsNoEarlier(base, end, g, f, live, k);
      assert f[..i] == f[..k] + [f[k]] && g[..i] == g[..k] + [g[k]];
    }
  }

  /** History independence: the live blocks alone determine the free list. */
  lemma FreeListDetermined(base: int, end: int, f: seq<Chunk>, g: seq<Chunk>, live: map<int, int>)
    requires Tiled(base, end, f, live) && Tiled(base, end, g, live)
    ensures f == g
  {
    SamePrefix(base, end, f, g, live, |f|);
    SamePrefix(base, end, g, f, live, |g|);
    assert f[..|f|] == f && g[..|g|] == g;
  }

  /** With no live block the free list is the single initial chunk. */
  lemma EmptyHeapIsOneChunk(base: int, end: int, f: seq<Chunk>)
    requires Tiled(base, end, f, map[]) && Sound(base, end, Chunk(base, end - base))
    ensures f == [Chunk(base, end - base)]
  {
    InitialTiles(base, end);
    FreeListDetermined(base, end, f, [Chunk(base, end - base)], map[]);
  }

  lemma InitialTiles(base: int, end: int)
    requires Sound(base, end, Chunk(base, end - base))
    ensures Tiled(base, end, [Chunk(base, end - base)], map[])
  {
    var f := [Chunk(base, end - base)];
    forall p | base <= p < end ensures InFree(f, p) { assert f[0].addr <= p < EndOf(f[0]); }
  }

  /** malloc followed by free restores the free list exactly. */
  lemma FreeUndoesMalloc(base: int, end: int, f: seq<Chunk>, live: map<int, int>, k: nat, wanted: int, i: int)
    requires Tiled(base, end, f, live) && k < |f| && HEADER <= wanted <= f[k].size && Aligned(wanted)
    requires IsPosition(TakeFree(f, k, wanted), Chunk(f[k].addr, BlockSize(f[k].size, wanted)), i)
    ensures Merged(TakeFree(f, k, wanted), Chunk(f[k].addr, BlockSize(f[k].size, wanted)), i) == f
  {
    var a, s := f[k].addr, BlockSize(f[k].size, wanted);
    TakeTiles(base, end, f, live, k, wanted);
    ReleaseTiles(base, end, TakeFree(f, k, wanted), live[a := s], a, i);
    assert live[a := s] - {a} == live;
    FreeListDetermined(base, end, f, Merged(TakeFree(f, k, wanted), Chunk(a, s), i), live);
  }
}
