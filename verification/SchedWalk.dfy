/** The loop of nextProcess: one lap over the ring that looks for a READY process and reaps the
    dead, then at most one more walk to the idle process. */
module SchedWalk {
  import opened Rotation
  import opened Sched

  function HeadOrNull(s: seq<int>): int { if s == [] then 0 else s[0] }

  /** After k steps of the first lap over q: none of the k was READY, the dead among them are gone,
      and what is ahead is the rest of q followed by the survivors. */
  ghost predicate LapOne(s0: Table, q: seq<int>, m: map<int, Proc>, k: nat,
                         order: seq<int>, procs: map<int, Proc>, cur: int, firstBlocked: int) {
    && Distinct(q) && k <= |q|
    && (forall i :: 0 <= i < k ==> !IsReady(m, q[i]))
    && (forall x :: x in q <==> x in m)
    && Distinct(s0.order) && (forall x :: x in s0.order <==> x in q)
    && order == Without(s0.order, DeadIn(q[..k], m))
    && procs == m - DeadIn(q[..k], m)
    && Distinct(order) && 0 !in order && order != []
    && (cur == 0 || cur in order)
    && Rot(order, cur) == q[k..] + Without(q[..k], DeadIn(q, m))
    && firstBlocked == HeadOrNull(Without(q[..k], DeadIn(q, m)))
  }

  lemma StartFacts(s: Table)
    requires WellFormed(s)
    ensures StartAt(s) == 0 || StartAt(s) in s.order
    ensures StartProcs(s).Keys == s.procs.Keys
    ensures StartProcs(s)[IDLE].state == s.procs[IDLE].state
  {
    if Expired(s) { NextIn(s.order, s.current); }
  }

  lemma LapStart(s: Table)
    requires WellFormed(s)
    ensures LapOne(s, Ring(s), StartProcs(s), 0, s.order, StartProcs(s), StartAt(s), 0)
  {
    hide Rot, Without, StartAt, StartProcs, IsReady;
    var q, m := Ring(s), StartProcs(s);
    StartFacts(s);
    RotDistinct(s.order, StartAt(s));
    forall x ensures x in q <==> x in s.order { RotMember(s.order, StartAt(s), x); }
    assert q[..0] == [] && q[0..] == q;
    NoneYet(q[..0], m, s.order, DeadIn(q, m));
    assert IDLE in s.order;
  }

  lemma NoneYet(q: seq<int>, m: map<int, Proc>, order: seq<int>, dead: set<int>)
    requires q == []
    ensures Without(order, DeadIn(q, m)) == order && m - DeadIn(q, m) == m && Without(q, dead) == []
  {
    assert DeadIn(q, m) == {};
    WithoutNone(order);
  }

  /** Facts about the element in front. */
  lemma LapFront(s0: Table, q: seq<int>, m: map<int, Proc>, k: nat,
                 order: seq<int>, procs: map<int, Proc>, cur: int, firstBlocked: int)
    requires LapOne(s0, q, m, k, order, procs, cur, firstBlocked) && cur != 0
    ensures cur in procs && procs[cur] == m[cur]
    ensures k < |q| ==> cur == q[k] && cur != firstBlocked
    ensures k == |q| ==> cur == firstBlocked && !IsReady(m, cur)
  {
    RotHead(order, cur);
    var w := Without(q[..k], DeadIn(q, m));
    WithoutMember(s0.order, DeadIn(q[..k], m), cur);
    if w != [] {
      WithoutMember(q[..k], DeadIn(q, m), w[0]);
      var i :| 0 <= i < k && q[..k][i] == w[0];
    }
  }

  lemma DeadStep(q: seq<int>, m: map<int, Proc>, k: nat)
    requires k < |q|
    ensures DeadIn(q[..k + 1], m) == if IsDead(m, q[k]) then DeadIn(q[..k], m) + {q[k]} else DeadIn(q[..k], m)
    ensures Without(q[..k + 1], DeadIn(q, m)) == Without(q[..k], DeadIn(q, m)) + (if IsDead(m, q[k]) then [] else [q[k]])
  {
    assert q[..k + 1] == q[..k] + [q[k]];
    WithoutConcat(q[..k], [q[k]], DeadIn(q, m));
    WithoutSingle(q[k], DeadIn(q, m));
  }

  /** A blocked process is passed over (lines 86-91). */
  lemma LapSkip(s0: Table, q: seq<int>, m: map<int, Proc>, k: nat,
                order: seq<int>, procs: map<int, Proc>, cur: int, firstBlocked: int)
    requires LapOne(s0, q, m, k, order, procs, cur, firstBlocked) && cur != 0 && k < |q|
    requires !IsReady(m, cur) && !IsDead(m, cur)
    ensures LapOne(s0, q, m, k + 1, order, procs, Next(order, cur), if firstBlocked == 0 then cur else firstBlocked)
  {
    hide Without, Rot, Next, DeadIn;
    LapFront(s0, q, m, k, order, procs, cur, firstBlocked);
    DeadStep(q, m, k);
    RotAdvance(order, cur);
    var w := Without(q[..k], DeadIn(q, m));
    NoNull(q, m, k, s0, order, procs, cur, firstBlocked);
    NextIn(order, cur);
    assert (q[k..] + w)[1..] + [cur] == q[k + 1..] + (w + [cur]);
  }

  // firstBlocked is NULL exactly while no blocked process has been passed.
  lemma NoNull(q: seq<int>, m: map<int, Proc>, k: nat, s0: Table, order: seq<int>, procs: map<int, Proc>, cur: int, firstBlocked: int)
    requires LapOne(s0, q, m, k, order, procs, cur, firstBlocked)
    ensures firstBlocked == 0 <==> Without(q[..k], DeadIn(q, m)) == []
  {
    var w := Without(q[..k], DeadIn(q, m));
    if w != [] {
      assert w[0] in q[k..] + w;
      assert w[0] in Rot(order, cur);
      RotMember(order, cur, w[0]);
    }
  }

  lemma NextIn(order: seq<int>, x: int)
    requires x in order
    ensures Next(order, x) == 0 || Next(order, x) in order
  {
  }

  /** A dead process is reaped (lines 81-85). */
  lemma LapReap(s0: Table, q: seq<int>, m: map<int, Proc>, k: nat,
                order: seq<int>, procs: map<int, Proc>, cur: int, firstBlocked: int)
    requires LapOne(s0, q, m, k, order, procs, cur, firstBlocked) && cur != 0 && k < |q|
    requires IsDead(m, cur) && |order| > 1
    ensures LapOne(s0, q, m, k + 1, RemoveOne(order, cur), procs - {cur}, Next(order, cur), firstBlocked)
  {
    hide Without, Rot, Next, DeadIn, RemoveOne;
    LapFront(s0, q, m, k, order, procs, cur, firstBlocked);
    DeadStep(q, m, k);
    RotRemove(order, cur);
    RemoveDistinct(order, cur);
    RemoveShape(order, cur);
    NotYet(q, m, k);
    WithoutOneMore(s0.order, DeadIn(q[..k], m), cur);
    var w := Without(q[..k], DeadIn(q, m));
    assert (q[k..] + w)[1..] == q[k + 1..] + w;
    assert procs - {cur} == m - (DeadIn(q[..k], m) + {cur});
  }

  lemma NotYet(q: seq<int>, m: map<int, Proc>, k: nat)
    requires Distinct(q) && k < |q|
    ensures q[k] !in DeadIn(q[..k], m)
  {
  }

  lemma RemoveShape(order: seq<int>, x: int)
    requires Distinct(order) && x in order && |order| > 1
    ensures RemoveOne(order, x) != []
    ensures Next(order, x) == 0 || Next(order, x) in RemoveOne(order, x)
  {
    RemoveDistinct(order, x);
    var i := IndexOf(order, x);
    if i + 1 < |order| { assert order[i + 1] != order[i]; }
  }

  /** NULL wraps to the head of the list (lines 75-76). */
  lemma LapWrap(s0: Table, q: seq<int>, m: map<int, Proc>, k: nat,
                order: seq<int>, procs: map<int, Proc>, firstBlocked: int)
    requires LapOne(s0, q, m, k, order, procs, 0, firstBlocked)
    ensures LapOne(s0, q, m, k, order, procs, order[0], firstBlocked)
  {
    FromNull(order);
    AtIndex(order, 0);
  }

  /** The first lap ends at a READY process exactly as Dispatch says. */
  lemma LapFound(s0: Table, q: seq<int>, m: map<int, Proc>, k: nat,
                 order: seq<int>, procs: map<int, Proc>, cur: int, firstBlocked: int)
    requires LapOne(s0, q, m, k, order, procs, cur, firstBlocked) && cur != 0 && IsReady(procs, cur)
    ensures k < |q| && k == FirstReady(q, m) && cur == q[k]
  {
    LapFront(s0, q, m, k, order, procs, cur, firstBlocked);
    var f := FirstReady(q, m);
  }

  // ---- the walk to idle -----------------------------------------------------------------

  /** Nobody but idle can run, and idle is on the list. */
  ghost predicate LapTwo(order: seq<int>, procs: map<int, Proc>, cur: int) {
    && Distinct(order) && 0 !in order && IDLE in order
    && (forall x :: x in order <==> x in procs)
    && (cur == 0 || cur in order)
    && procs[IDLE].state.Ready?
    && forall x :: x in procs && x != IDLE ==> !procs[x].state.Ready? && !procs[x].state.Dead?
  }

  /** Steps left until idle is in front. */
  function Distance(order: seq<int>, cur: int): nat
    requires IDLE in order
  {
    RotMember(order, cur, IDLE);
    IndexOf(Rot(order, cur), IDLE)
  }

  lemma Closer(order: seq<int>, cur: int)
    requires Distinct(order) && 0 !in order && IDLE in order && cur in order && cur != IDLE
    ensures Distance(order, Next(order, cur)) == Distance(order, cur) - 1
  {
    hide Rot, Next, Distinct;
    RotMember(order, cur, IDLE);
    RotAdvance(order, cur);
    RotHead(order, cur);
    RotDistinct(order, cur);
    RotDistinct(order, Next(order, cur));
    var r := Rot(order, cur);
    var i := IndexOf(r, IDLE);
    var t := r[1..] + [cur];
    assert t[i - 1] == IDLE;
    IndexUnique(t, i - 1);
  }

  lemma SameDistance(order: seq<int>)
    requires Distinct(order) && 0 !in order && IDLE in order
    ensures Distance(order, order[0]) == Distance(order, 0)
  {
    FromNull(order);
    AtIndex(order, 0);
    assert order[0..] + order[..0] == order;
  }

  /** The end of a fruitless first lap: idle is woken (lines 77-80). */
  lemma LapTurn(s0: Table, q: seq<int>, m: map<int, Proc>, k: nat,
                order: seq<int>, procs: map<int, Proc>, cur: int, firstBlocked: int)
    requires WellFormed(s0) && q == Ring(s0) && m == StartProcs(s0)
    requires LapOne(s0, q, m, k, order, procs, cur, firstBlocked) && cur != 0 && cur == firstBlocked
    ensures k == |q| == FirstReady(q, m)
    ensures order == Without(s0.order, DeadIn(q, m)) && procs == m - DeadIn(q, m)
    ensures WakeIdle(procs) == WakeIdle(m) - DeadIn(q, m)
    ensures IDLE in procs && !procs[IDLE].state.Ready? && !procs[IDLE].state.Dead?
    ensures LapTwo(order, WakeIdle(procs), cur)
  {
    hide Without, Rot, StartProcs, StartAt, Next, DeadIn, Ring;
    LapFront(s0, q, m, k, order, procs, cur, firstBlocked);
    StartFacts(s0);
    assert q[..|q|] == q;
    NobodyReady(q, m);
    IdleStays(q, m, procs);
    forall x ensures x in order <==> x in procs { WithoutMember(s0.order, DeadIn(q, m), x); }
    DeadGone(q, m);
  }

  lemma NobodyReady(q: seq<int>, m: map<int, Proc>)
    requires (forall i :: 0 <= i < |q| ==> !IsReady(m, q[i])) && forall x :: x in q <==> x in m
    ensures FirstReady(q, m) == |q| && forall x :: x in m ==> !m[x].state.Ready?
  {
    forall x | x in m ensures !m[x].state.Ready? {
      var i :| 0 <= i < |q| && q[i] == x;
    }
  }

  lemma DeadGone(q: seq<int>, m: map<int, Proc>)
    requires forall x :: x in q <==> x in m
    ensures forall x :: x in m - DeadIn(q, m) ==> !m[x].state.Dead?
  {
  }

  lemma IdleStays(q: seq<int>, m: map<int, Proc>, procs: map<int, Proc>)
    requires IDLE in m && !m[IDLE].state.Dead? && procs == m - DeadIn(q, m)
    ensures IDLE in procs && procs[IDLE] == m[IDLE]
    ensures WakeIdle(procs) == WakeIdle(m) - DeadIn(q, m)
  {
  }

  // ---- the result -------------------------------------------------------------------------

  /** A table whose dead have been reaped is still well-formed. */
  lemma ReapedWellFormed(s: Table, m: map<int, Proc>, dead: set<int>, cur: int, flag: int)
    requires WellFormed(s) && m.Keys == s.procs.Keys && IDLE !in dead
    requires !m[IDLE].state.Dead?
    requires cur == 0 || (cur in m && cur !in dead)
    ensures WellFormed(Table(Without(s.order, dead), m - dead, cur, flag, s.nextPid))
  {
    WithoutDistinct(s.order, dead);
    forall x ensures x in Without(s.order, dead) <==> x in s.order && x !in dead { WithoutMember(s.order, dead, x); }
  }

  lemma FinishKeeps(s: Table, m: map<int, Proc>, chosen: int, flag: int)
    requires WellFormed(s) && s.procs == m && IsReady(m, chosen)
    ensures WellFormed(Finish(s, m, chosen, {}, flag)) && IsReady(Finish(s, m, chosen, {}, flag).procs, chosen)
    ensures Finish(s, m, chosen, {}, flag).current == chosen
  {
    WithoutNone(s.order);
    assert m - {} == m;
  }

  /** Reaping first and finishing later is the same. */
  lemma FinishLater(s: Table, m: map<int, Proc>, chosen: int, dead: set<int>, flag: int, t: Table)
    requires t.order == Without(s.order, dead) && t.procs == m - dead && t.nextPid == s.nextPid
    ensures Finish(t, t.procs, chosen, {}, flag) == Finish(s, m, chosen, dead, flag)
  {
    WithoutNone(t.order);
    assert t.procs - {} == t.procs;
  }

  lemma DeadExcludes(q: seq<int>, m: map<int, Proc>, x: int)
    requires x in m && !m[x].state.Dead?
    ensures x !in DeadIn(q, m)
  {
  }

  /** The first lap found somebody. */
  lemma DoneInLapOne(s0: Table, k: nat, t: Table, firstBlocked: int)
    requires WellFormed(s0) && t.idleFlag == s0.idleFlag && t.nextPid == s0.nextPid
    requires LapOne(s0, Ring(s0), StartProcs(s0), k, t.order, t.procs, t.current, firstBlocked)
    requires t.current != 0 && IsReady(t.procs, t.current)
    ensures WellFormed(t) && Dispatch(s0) == Finish(t, t.procs, t.current, {}, t.idleFlag) && t.current == Chosen(s0)
  {
    hide Without, Rot, StartProcs, StartAt, Ring, DeadIn, Finish, WellFormed, Distinct;
    var q, m := Ring(s0), StartProcs(s0);
    LapFound(s0, q, m, k, t.order, t.procs, t.current, firstBlocked);
    LapFront(s0, q, m, k, t.order, t.procs, t.current, firstBlocked);
    StartKeys(s0);
    DeadExcludes(q[..k], m, IDLE);
    DeadExcludes(q[..k], m, t.current);
    ReapedWellFormed(s0, m, DeadIn(q[..k], m), t.current, t.idleFlag);
    FinishLater(s0, m, t.current, DeadIn(q[..k], m), t.idleFlag, t);
  }

  lemma StartKeys(s: Table)
    requires WellFormed(s)
    ensures StartProcs(s).Keys == s.procs.Keys && IDLE in StartProcs(s)
    ensures !StartProcs(s)[IDLE].state.Dead?
  {
    StartFacts(s);
  }

  /** Nobody was READY: idle runs. */
  lemma DoneInLapTwo(s0: Table, t: Table)
    requires WellFormed(s0) && t.nextPid == s0.nextPid && t.idleFlag == 1 && LapTwo(t.order, t.procs, t.current)
    requires
      var q, m := Ring(s0), StartProcs(s0);
      FirstReady(q, m) == |q| && t.order == Without(s0.order, DeadIn(q, m)) && t.procs == WakeIdle(m) - DeadIn(q, m)
    requires t.current != 0 && IsReady(t.procs, t.current)
    ensures WellFormed(t) && Dispatch(s0) == Finish(t, t.procs, t.current, {}, t.idleFlag) && t.current == Chosen(s0) == IDLE
  {
    hide Without, Rot, StartProcs, StartAt, Ring, DeadIn, Finish, WellFormed, Distinct;
    var q, m := Ring(s0), StartProcs(s0);
    StartKeys(s0);
    DeadExcludes(q, m, IDLE);
    ReapedWellFormed(s0, WakeIdle(m), DeadIn(q, m), t.current, 1);
    FinishLater(s0, WakeIdle(m), IDLE, DeadIn(q, m), 1, t);
  }

  /** nextProcess keeps the table well-formed and leaves a READY process running. */
  lemma DispatchKeeps(s: Table)
    requires WellFormed(s)
    ensures WellFormed(Dispatch(s)) && Dispatch(s).current == Chosen(s) && Dispatch(s).nextPid == s.nextPid
    ensures IsReady(Dispatch(s).procs, Chosen(s))
  {
    hide Without, Rot, StartProcs, StartAt, Ring, DeadIn, Finish, WellFormed, Distinct, WakeIdle;
    var q, m := Ring(s), StartProcs(s);
    var k := FirstReady(q, m);
    StartKeys(s);
    var dead := if k < |q| then DeadIn(q[..k], m) else DeadIn(q, m);
    var m' := if k < |q| then m else WakeIdle(m);
    var flag := if k < |q| then s.idleFlag else 1;
    WokenFacts(m);
    DeadExcludes(if k < |q| then q[..k] else q, m, IDLE);
    DeadExcludes(if k < |q| then q[..k] else q, m, Chosen(s));
    ReapedWellFormed(s, m', dead, Chosen(s), flag);
    var t := Table(Without(s.order, dead), m' - dead, Chosen(s), flag, s.nextPid);
    FinishLater(s, m', Chosen(s), dead, flag, t);
    FinishKeeps(t, t.procs, Chosen(s), flag);
    FinishPid(t, t.procs, Chosen(s), flag);
  }

  lemma FinishPid(s: Table, m: map<int, Proc>, chosen: int, flag: int)
    ensures Finish(s, m, chosen, {}, flag).nextPid == s.nextPid
  {
  }

  lemma WokenFacts(m: map<int, Proc>)
    requires IDLE in m && !m[IDLE].state.Dead?
    ensures WakeIdle(m).Keys == m.Keys && WakeIdle(m)[IDLE].state.Ready?
  {
  }
}
