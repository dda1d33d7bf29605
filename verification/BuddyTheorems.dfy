/** What the buddy allocator's tags and results mean, over every run. */
module BuddyTheorems {
  import opened Bits
  import opened BuddyTree
  import opened BuddyAllocator
  import opened Options

  /** Canonical form: the tag of every live node is determined by the allocated blocks alone. */
  lemma CanonicalTags(t: seq<Tag>, max: nat, i: nat)
    requires WellFormed(t, max) && i < |t| && Live(t, i)
    ensures t[i].Unused? <==> forall p :: Holds(i, max, p) ==> !Taken(Blocks(t, max), p)
    ensures t[i].Used? <==> NodeBlock(i, max) in Blocks(t, max)
    ensures t[i].Full? <==>
      NodeBlock(i, max) !in Blocks(t, max) && forall p :: Holds(i, max, p) ==> Taken(Blocks(t, max), p)
    ensures t[i].Split? <==>
      && (exists p :: Holds(i, max, p) && Taken(Blocks(t, max), p))
      && (exists p :: Holds(i, max, p) && !Taken(Blocks(t, max), p))
  {
    var b := Blocks(t, max);
    InArrayIffDepth(i, max);
    UsedIffBlock(t, max, i);
    assert Holds(i, max, Start(i, max));
    if t[i].Unused? {
      forall p | Holds(i, max, p) ensures !Taken(b, p) { UnusedIsFree(t, max, i, p); }
    } else {
      var p := SomeTaken(t, max, i);
    }
    if Busy(t[i]) {
      forall p | Holds(i, max, p) ensures Taken(b, p) { BusyIsTaken(t, max, i, p); }
    } else {
      var p := NotBusyHasFree(t, max, i);
    }
  }

  lemma UsedIffBlock(t: seq<Tag>, max: nat, i: nat)
    requires WellFormed(t, max) && i < |t| && Live(t, i)
    ensures t[i].Used? <==> NodeBlock(i, max) in Blocks(t, max)
  {
    if t[i].Used? { assert i in UsedNodes(t); }
    if NodeBlock(i, max) in Blocks(t, max) {
      var j :| j in UsedNodes(t) && NodeBlock(j, max) == NodeBlock(i, max);
      InArrayIffDepth(i, max);
      InArrayIffDepth(j, max);
      BlockDetermines(i, j, max);
    }
  }

  lemma SomeTaken(t: seq<Tag>, max: nat, i: nat) returns (p: int)
    requires WellFormed(t, max) && i < |t| && Live(t, i) && !t[i].Unused?
    ensures Holds(i, max, p) && Taken(Blocks(t, max), p)
  {
    var j := NotUnusedHasBlock(t, max, i);
    InArrayIffDepth(j, max);
    AboveContains(i, j, max);
    p := Start(j, max);
    UsedTaken(t, max, j, p);
  }

  /** History does not matter: two well-formed trees with the same blocks have the same live
      nodes with the same tags, however they were reached. */
  lemma {:induction false} SameBlocksSameTags(t: seq<Tag>, u: seq<Tag>, max: nat, i: nat)
    requires WellFormed(t, max) && WellFormed(u, max) && Blocks(t, max) == Blocks(u, max)
    requires i < |t| && Live(t, i)
    ensures Live(u, i) && t[i] == u[i]
    decreases i
  {
    if i > 0 {
      SameBlocksSameTags(t, u, max, (i - 1) / 2);
    }
    SameTag(t, u, max, i);
  }

  lemma SameTag(t: seq<Tag>, u: seq<Tag>, max: nat, i: nat)
    requires WellFormed(t, max) && WellFormed(u, max) && Blocks(t, max) == Blocks(u, max)
    requires i < |t| && Live(t, i) && Live(u, i)
    ensures t[i] == u[i]
  {
    CanonicalTags(t, max, i);
    CanonicalTags(u, max, i);
  }

  /** With nothing allocated the whole heap is one unused node again. */
  lemma EmptyMeansUnused(t: seq<Tag>, max: nat)
    requires WellFormed(t, max) && Blocks(t, max) == {}
    ensures t[0].Unused?
  {
    if !t[0].Unused? {
      var p := SomeTaken(t, max, 0);
    }
  }

  // ---- conservation ------------------------------------------------------------

  ghost function Pick(b: set<Block>): Block
    requires b != {}
    ensures Pick(b) in b
  {
    var x :| x in b;
    x
  }

  ghost function TotalPages(b: set<Block>): nat {
    if b == {} then 0 else Pick(b).len + TotalPages(b - {Pick(b)})
  }

  /** The pages the dump counts as used are the sum of the live blocks. */
  lemma {:induction false} UsedIsSumOfBlocks(b: set<Block>, pages: nat)
    requires Disjoint(b) && forall x :: x in b ==> x.start + x.len <= pages
    ensures |TakenPages(b, 0, pages)| == TotalPages(b)
    decreases |b|
  {
    hide TakenPages, Taken;
    if b == {} {
      NothingTaken(pages);
    } else {
      UsedIsSumOfBlocks(b - {Pick(b)}, pages);
      TakenWithout(b, Pick(b), pages);
    }
  }

  lemma NothingTaken(pages: nat)
    ensures |TakenPages({}, 0, pages)| == 0
  {
    NonePages({}, 0, pages);
  }

  lemma TakenWithout(b: set<Block>, x: Block, pages: nat)
    requires x in b && Disjoint(b) && x.start + x.len <= pages
    ensures |TakenPages(b, 0, pages)| == x.len + |TakenPages(b - {x}, 0, pages)|
  {
    forall p | x.start <= p < x.start + x.len ensures Taken(b, p) {}
    AllPages(b, x.start, x.len);
    var own, others := TakenPages(b, x.start, x.len), TakenPages(b - {x}, 0, pages);
    forall p ensures p in TakenPages(b, 0, pages) <==> p in own || p in others {
      TakenByOther(b, x, p);
    }
    assert TakenPages(b, 0, pages) == own + others;
    forall p | p in own ensures p !in others { TakenByOther(b, x, p); }
    assert own * others == {};
  }

  lemma TakenByOther(b: set<Block>, x: Block, p: int)
    requires x in b && Disjoint(b)
    ensures Taken(b - {x}, p) <==> Taken(b, p) && !(x.start <= p < x.start + x.len)
  {
  }

  // ---- every run refines a set of blocks --------------------------------------

  datatype Request = AllocBytes(s: int) | FreePage(page: int)

  lemma LowestUnique(b: set<Block>, pages: nat, n: nat, a: nat, c: nat)
    requires n > 0 && IsLowest(b, pages, n, a) && IsLowest(b, pages, n, c)
    ensures a == c
  {
  }

  /** The specification of one call: take the lowest aligned free run, or drop the block that
      starts at the page. */
  ghost function Served(b: set<Block>, pages: nat, q: Request): set<Block> {
    match q
    case AllocBytes(s) =>
      var n := RequestPages(s);
      if n > 0 && exists a :: IsLowest(b, pages, n, a) then
        var a :| IsLowest(b, pages, n, a);
        b + {Block(a, n)}
      else b
    case FreePage(p) => Without(b, p)
  }

  ghost function ServedAll(b: set<Block>, pages: nat, qs: seq<Request>): set<Block> {
    if qs == [] then b
    else Served(ServedAll(b, pages, qs[..|qs| - 1]), pages, qs[|qs| - 1])
  }

  lemma NoRunNoLowest(b: set<Block>, pages: nat, n: nat)
    requires n > 0 && NoFreeRun(b, pages, n)
    ensures !exists a :: IsLowest(b, pages, n, a)
  {
  }

  method Serve(h: Buddy, q: Request)
    requires h.Valid() && (q.AllocBytes? ==> IsInt(q.s) && Servable(q.s))
    modifies h.tree
    ensures h.Valid() && h.Allocated() == Served(old(h.Allocated()), Pow2(h.max), q)
  {
    ghost var b := h.Allocated();
    match q {
      case AllocBytes(s) =>
        var r := h.Alloc(s);
        if r.Some? {
          ghost var a: nat :| IsLowest(b, Pow2(h.max), RequestPages(s), a) && h.Allocated() == b + {Block(a, RequestPages(s))};
          forall c | IsLowest(b, Pow2(h.max), RequestPages(s), c) ensures c == a {
            LowestUnique(b, Pow2(h.max), RequestPages(s), a, c);
          }
        } else {
          NoRunNoLowest(b, Pow2(h.max), RequestPages(s));
        }
      case FreePage(p) =>
        PageOfPage(p);
        var ok := h.Free(p * PAGE_SIZE + h.heapAddress);
        if !ok { assert Without(b, p) == b; }
    }
  }

  lemma PageOfPage(p: int)
    ensures PageOf(p * PAGE_SIZE) == p
  {
  }

  /** Any sequence of calls on a fresh heap leaves exactly the specified blocks, all disjoint. */
  method ServeAll(max: nat, heapAddress: int, qs: seq<Request>) returns (h: Buddy)
    requires forall q :: q in qs && q.AllocBytes? ==> IsInt(q.s) && Servable(q.s)
    ensures h.Valid() && h.max == max && h.Allocated() == ServedAll({}, Pow2(max), qs)
    ensures Disjoint(h.Allocated())
    ensures ServedAll({}, Pow2(max), qs) == {} ==> h.tree[0].Unused?
  {
    h := new Buddy(max, heapAddress);
    for i := 0 to |qs|
      invariant h.Valid() && h.max == max && fresh(h.tree)
      invariant h.Allocated() == ServedAll({}, Pow2(max), qs[..i])
    {
      Serve(h, qs[i]);
      assert qs[..i + 1][..i] == qs[..i];
    }
    assert qs[..|qs|] == qs;
    BlocksDisjoint(h.tree[..], max);
    if h.Allocated() == {} { EmptyMeansUnused(h.tree[..], max); }
  }

  lemma {:induction false} ServedConcat(b: set<Block>, pages: nat, qs: seq<Request>, rs: seq<Request>)
    ensures ServedAll(b, pages, qs + rs) == ServedAll(ServedAll(b, pages, qs), pages, rs)
    decreases |rs|
  {
    if rs == [] {
      assert qs + rs == qs;
    } else {
      var k := |rs| - 1;
      assert (qs + rs)[..|qs| + k] == qs + rs[..k];
      ServedConcat(b, pages, qs, rs[..k]);
    }
  }

  /** After any sequence of calls, freeing every block still allocated, in any order, leaves the tag
      array with its root UNUSED. */
  method ServeThenFreeAll(max: nat, heapAddress: int, qs: seq<Request>, order: seq<Request>) returns (h: Buddy)
    requires forall q :: q in qs && q.AllocBytes? ==> IsInt(q.s) && Servable(q.s)
    requires forall q :: q in order ==> q.FreePage?
    requires forall x :: x in ServedAll({}, Pow2(max), qs) ==> FreePage(x.start) in order
    ensures h.Valid() && h.max == max && h.Allocated() == {} && h.tree.Length > 0 && h.tree[0].Unused?
  {
    FreeAllInAnyOrder(ServedAll({}, Pow2(max), qs), Pow2(max), order);
    ServedConcat({}, Pow2(max), qs, order);
    h := ServeAll(max, heapAddress, qs + order);
  }

  /** Free undoes alloc. */
  lemma FreeUndoesAlloc(b: set<Block>, pages: nat, n: nat, a: nat)
    requires n > 0 && IsLowest(b, pages, n, a) && Disjoint(b) && forall x :: x in b ==> x.len > 0
    ensures Block(a, n) !in b
    ensures Without(b + {Block(a, n)}, a) == b
  {
    forall x | x in b ensures x.start != a {
      assert !Taken(b, a);
    }
  }

  /** Freeing every block, in any order and even with repetitions, empties the heap. */
  lemma {:induction false} FreeAllInAnyOrder(b: set<Block>, pages: nat, order: seq<Request>)
    requires forall q :: q in order ==> q.FreePage?
    ensures ServedAll(b, pages, order) == set x | x in b && FreePage(x.start) !in order
    decreases |order|
  {
    if order != [] {
      var k := |order| - 1;
      FreeAllInAnyOrder(b, pages, order[..k]);
      var rest := ServedAll(b, pages, order[..k]);
      assert order == order[..k] + [order[k]];
      assert forall q :: q in order <==> q in order[..k] || q == order[k];
      assert ServedAll(b, pages, order) == Without(rest, order[k].page);
      forall x | x in b ensures FreePage(x.start) == order[k] <==> x.start == order[k].page {}
    }
  }
}
