/** Lemmas about one in-place update of the tag array. */
module BuddySteps {
  import opened BuddyTree

  /** The node whose consistency is pending while a change at i moves upward. */
  function Pending(i: nat): int {
    if i == 0 then -1 else Parent(i)
  }

  /** Everything but the parent of i is consistent, and that parent is still SPLIT. */
  ghost predicate MarkReady(t: seq<Tag>, max: nat, i: nat) {
    && Sized(t, max) && i < |t| && Live(t, i) && Busy(t[i])
    && LocalExcept(t, Pending(i))
    && (i > 0 ==> t[Parent(i)].Split? && 2 * Parent(i) + 2 < |t|)
  }

  lemma ChildOf(i: nat)
    requires i > 0
    ensures i == 2 * Parent(i) + 1 || i == 2 * Parent(i) + 2
    ensures Buddy(i) == 2 * Parent(i) + 1 || Buddy(i) == 2 * Parent(i) + 2
    ensures Buddy(i) != i
  {
  }

  /** One round of _mark_parent: the parent becomes FULL. */
  lemma MarkUp(t: seq<Tag>, max: nat, i: nat)
    requires i > 0 && MarkReady(t, max, i) && Buddy(i) < |t| && Busy(t[Buddy(i)])
    ensures MarkReady(t[Parent(i) := Full], max, Parent(i))
    ensures UsedNodes(t[Parent(i) := Full]) == UsedNodes(t)
  {
    var p := Parent(i);
    var u := t[p := Full];
    ChildOf(i);
    RetagKeepsLive(t, p, Full);
    if p > 0 {
      ChildOf(p);
      assert Live(t, p);
      assert Live(t, Parent(p)) && Parent(p) != p;
      assert Local(t, Parent(p));
    }
    forall k: nat | k < |u| && k != Pending(p) && Live(u, k) ensures Local(u, k) {
      if k != p { assert Local(t, k); }
    }
  }

  /** _mark_parent stops: the pending parent stays SPLIT and is consistent. */
  lemma MarkStop(t: seq<Tag>, max: nat, i: nat)
    requires MarkReady(t, max, i)
    requires i > 0 ==> !Busy(t[Buddy(i)])
    ensures WellFormed(t, max)
  {
    if i > 0 { ChildOf(i); }
  }

  /** Splitting an unused node, as the search does before descending. */
  lemma SplitUnused(t: seq<Tag>, max: nat, i: nat, u: seq<Tag>)
    requires Sized(t, max) && 2 * i + 2 < |t| && Live(t, i) && t[i].Unused?
    requires LocalExcept(t, -1) || (i > 0 && LocalExcept(t, Parent(i)) && t[Parent(i)].Split?)
    requires u == t[i := Split][2 * i + 1 := Unused][2 * i + 2 := Unused]
    ensures Live(u, 2 * i + 1) && LocalExcept(u, i)
    ensures UsedNodes(u) == UsedNodes(t)
  {
    var l, r := 2 * i + 1, 2 * i + 2;
    assert (l - 1) / 2 == i && (r - 1) / 2 == i;
    forall k: nat | k < |t|
      ensures Live(u, k) <==> Live(t, k) || k == l || k == r
      ensures Live(t, k) ==> !(Above(i, k) && i != k)
      ensures Live(u, k) && k != l && k != r ==> u[k] == t[k] || k == i
    {
      SplitLive(t, i, u, k);
    }
    forall k: nat | k < |u| && k != i && Live(u, k) ensures Local(u, k) {
      if k != l && k != r {
        if i > 0 { ChildOf(i); }
        SplitLocal(t, i, u, k);
      }
    }
  }

  lemma {:induction false} SplitLive(t: seq<Tag>, i: nat, u: seq<Tag>, k: nat)
    requires k < |t| && 2 * i + 2 < |t| && Live(t, i) && t[i].Unused?
    requires u == t[i := Split][2 * i + 1 := Unused][2 * i + 2 := Unused]
    ensures Live(u, k) <==> Live(t, k) || k == 2 * i + 1 || k == 2 * i + 2
    ensures Live(t, k) ==> !(Above(i, k) && i != k)
    decreases k
  {
    if k > 0 {
      var p := (k - 1) / 2;
      SplitLive(t, i, u, p);
      if p == i {
        SelfLive(t, u, i);
      }
      if Live(t, k) && Above(i, k) && i != k { LiveAbove(t, i, k); }
      assert p == 2 * i + 1 || p == 2 * i + 2 ==> (p - 1) / 2 == i && !Live(t, p);
    }
  }

  lemma SelfLive(t: seq<Tag>, u: seq<Tag>, i: nat)
    requires 2 * i + 2 < |t| && Live(t, i)
    requires u == t[i := Split][2 * i + 1 := Unused][2 * i + 2 := Unused]
    ensures Live(u, i)
  {
    LiveSame(t, u, i);
  }

  lemma ParentLocal(t: seq<Tag>, i: nat)
    requires 0 < i < |t| && Live(t, i) && t[i].Unused?
    requires LocalExcept(t, -1) || (LocalExcept(t, Parent(i)) && t[Parent(i)].Split?)
    ensures t[Parent(i)].Split?
  {
    ChildOf(i);
    if LocalExcept(t, -1) { assert Local(t, Parent(i)); }
  }

  lemma OthersLocal(t: seq<Tag>, i: nat, k: nat)
    requires i < |t| && k < |t| && Live(t, k) && (i > 0 ==> k != Parent(i))
    requires LocalExcept(t, -1) || (i > 0 && LocalExcept(t, Parent(i)) && t[Parent(i)].Split?)
    ensures Local(t, k)
  {
  }

  lemma SplitLocal(t: seq<Tag>, i: nat, u: seq<Tag>, k: nat)
    requires 2 * i + 2 < |t| && Live(t, i) && t[i].Unused? && k < |t|
    requires LocalExcept(t, -1) || (i > 0 && LocalExcept(t, Parent(i)) && t[Parent(i)].Split?)
    requires u == t[i := Split][2 * i + 1 := Unused][2 * i + 2 := Unused]
    requires k != i && k != 2 * i + 1 && k != 2 * i + 2 && Live(t, k)
    ensures Local(u, k)
  {
    hide Live, LocalExcept;
    var l, r := 2 * k + 1, 2 * k + 2;
    assert u[k] == t[k];
    if i > 0 && k == Parent(i) {
      ChildOf(i);
      ParentLocal(t, i);
      assert r < |t| && u[i].Split? && u[Buddy(i)] == t[Buddy(i)];
    } else {
      OthersLocal(t, i, k);
      assert r < |t| ==> l != i && r != i && u[l] == t[l] && u[r] == t[r];
    }
  }

  /** Taking an unused node for a request: only its parent can become inconsistent. */
  lemma TakeUnused(t: seq<Tag>, max: nat, i: nat)
    requires Sized(t, max) && i < |t| && Live(t, i) && t[i].Unused?
    requires LocalExcept(t, -1) || (i > 0 && LocalExcept(t, Parent(i)) && t[Parent(i)].Split? && 2 * Parent(i) + 2 < |t|)
    ensures MarkReady(t[i := Used], max, i)
    ensures UsedNodes(t[i := Used]) == UsedNodes(t) + {i}
    ensures Blocks(t[i := Used], max) == Blocks(t, max) + {NodeBlock(i, max)}
  {
    var u := t[i := Used];
    RetagKeepsLive(t, i, Used);
    if i > 0 {
      ChildOf(i);
      assert Live(t, Parent(i));
      if LocalExcept(t, -1) { assert Local(t, Parent(i)); }
    }
    forall k: nat | k < |u| && k != Pending(i) && Live(u, k) ensures Local(u, k) {
      if k != i { assert Local(t, k); }
    }
    assert UsedNodes(u) == UsedNodes(t) + {i};
  }

  /** Everything but the parent of i is consistent; i itself is not busy and the halves of that
      parent are not both unused, so the parent only has to stop being FULL. */
  ghost predicate ReleaseReady(t: seq<Tag>, max: nat, i: nat) {
    && Sized(t, max) && i < |t| && Live(t, i) && !Busy(t[i])
    && LocalExcept(t, Pending(i))
    && (i > 0 ==> 2 * Parent(i) + 2 < |t| && Buddy(i) < |t| && !(t[i].Unused? && t[Buddy(i)].Unused?))
  }

  /** One round of the second loop of _combine: a FULL parent becomes SPLIT. */
  lemma ReleaseUp(t: seq<Tag>, max: nat, i: nat)
    requires i > 0 && ReleaseReady(t, max, i) && t[Parent(i)].Full?
    ensures ReleaseReady(t[Parent(i) := Split], max, Parent(i))
    ensures UsedNodes(t[Parent(i) := Split]) == UsedNodes(t)
  {
    var p := Parent(i);
    var u := t[p := Split];
    ChildOf(i);
    RetagKeepsLive(t, p, Split);
    if p > 0 {
      ChildOf(p);
      assert Live(t, p);
      assert Live(t, Parent(p)) && Parent(p) != p;
      assert Local(t, Parent(p));
    }
    forall k: nat | k < |u| && k != Pending(p) && Live(u, k) ensures Local(u, k) {
      if k != p { assert Local(t, k); }
    }
  }

  lemma ReleaseStop(t: seq<Tag>, max: nat, i: nat)
    requires ReleaseReady(t, max, i) && (i > 0 ==> !t[Parent(i)].Full?)
    ensures WellFormed(t, max)
  {
    if i > 0 { ChildOf(i); }
  }

  /** i is live and the block at `used` is the only one under it. */
  ghost predicate OnlyBlock(t: seq<Tag>, i: nat, used: nat) {
    && i < |t| && Live(t, i) && used in UsedNodes(t) && Above(i, used)
    && forall k :: k in UsedNodes(t) && Above(i, k) ==> k == used
  }

  /** With an unused buddy the same is true of the parent. */
  lemma CombineUp(t: seq<Tag>, max: nat, i: nat, used: nat)
    requires WellFormed(t, max) && i > 0 && OnlyBlock(t, i, used)
    requires Buddy(i) < |t| && t[Buddy(i)].Unused?
    ensures OnlyBlock(t, Parent(i), used)
  {
    var p := Parent(i);
    assert Above(p, i);
    AboveTransitive(p, i, used);
    forall k | k in UsedNodes(t) && Above(p, k) ensures k == used {
      ChildOf(i);
      BelowChild(p, k);
      if Above(Buddy(i), k) { LiveAbove(t, Buddy(i), k); }
    }
  }

  lemma {:induction false} BelowChild(p: nat, k: nat)
    requires Above(p, k)
    ensures p == k || Above(2 * p + 1, k) || Above(2 * p + 2, k)
    decreases k
  {
    if p != k {
      var q := (k - 1) / 2;
      BelowChild(p, q);
      if p == q { assert k == 2 * p + 1 || k == 2 * p + 2; }
    }
  }

  /** Clearing a subtree that holds a single block removes just that block. */
  lemma ClearNode(t: seq<Tag>, max: nat, i: nat, used: nat)
    requires WellFormed(t, max) && OnlyBlock(t, i, used)
    requires i > 0 ==> Buddy(i) < |t| && !t[Buddy(i)].Unused?
    ensures ReleaseReady(t[i := Unused], max, i)
    ensures UsedNodes(t[i := Unused]) == UsedNodes(t) - {used}
    ensures Blocks(t[i := Unused], max) == Blocks(t, max) - {NodeBlock(used, max)}
  {
    var u := t[i := Unused];
    forall k: nat | k < |t|
      ensures Live(u, k) <==> Live(t, k) && (k == i || !Above(i, k))
    {
      ClearLive(t, i, k);
    }
    if i > 0 { ChildOf(i); assert Local(t, Parent(i)); }
    forall k: nat | k < |u| && k != Pending(i) && Live(u, k) ensures Local(u, k) {
      if k != i { assert Local(t, k); }
    }
    assert UsedNodes(u) == UsedNodes(t) - {used};
    BlocksWithout(t, u, max, used);
  }

  lemma {:induction false} ClearLive(t: seq<Tag>, i: nat, k: nat)
    requires k < |t| && i < |t| && Live(t, i)
    ensures Live(t[i := Unused], k) <==> Live(t, k) && (k == i || !Above(i, k))
    decreases k
  {
    if k > 0 {
      var p := (k - 1) / 2;
      ClearLive(t, i, p);
      if k == i && Above(i, p) { AboveDepth(i, p); }
    }
  }

  lemma BlocksWithout(t: seq<Tag>, u: seq<Tag>, max: nat, used: nat)
    requires Sized(t, max) && used in UsedNodes(t) && UsedNodes(u) == UsedNodes(t) - {used}
    ensures Blocks(u, max) == Blocks(t, max) - {NodeBlock(used, max)}
  {
    forall k | k in UsedNodes(t) && NodeBlock(k, max) == NodeBlock(used, max) ensures k == used {
      InArrayIffDepth(k, max);
      InArrayIffDepth(used, max);
      BlockDetermines(k, used, max);
    }
    forall x | x in Blocks(t, max) - {NodeBlock(used, max)} ensures x in Blocks(u, max) {
      var k :| k in UsedNodes(t) && x == NodeBlock(k, max);
      assert k in UsedNodes(u);
    }
  }
}
