/** What the steps of the kernel machine do to semaphores and processes, over single steps and runs
    (Kernel/utils/sem.c, Kernel/utils/scheduler.c). */
module KernelEffects {
  import opened Rotation
  import opened Sched
  import opened SchedInvariants
  import opened SchedEffects
  import opened Kernel
  import opened KernelTheorems

  // ---- semWait and semPost ------------------------------------------------------------------

  /** Only semaphore s and the caller's place changed. */
  ghost predicate OnlySem(k: Machine, k': Machine, s: int) {
    && k'.sems.Keys == k.sems.Keys && (forall r :: r in k.sems && r != s ==> k'.sems[r] == k.sems[r])
    && k'.pcs.Keys == k.pcs.Keys && forall x :: x in k.pcs && x != k.t.current ==> k'.pcs[x] == k.pcs[x]
  }

  /** semWait on a positive semaphore takes one and returns; at zero it queues the caller last, blocks it,
      leaves the value alone and gives up the processor. */
  lemma SemWaitEffect(k: Machine, s: int)
    requires Inv(k) && Enabled(k, SemWait(s))
    ensures s in k.sems && k.t.current in k.t.procs && k.t.current in k.pcs && k.pcs[k.t.current].User?
    ensures
      var p, m, k' := k.t.current, k.sems[s], Step(k, SemWait(s));
      && OnlySem(k, k', s) && !k'.semLock
      && (m.value > 0 ==>
            k'.t == k.t && k'.pcs[p].User? && k'.sems[s] == m.(value := m.value - 1, taken := m.taken + 1))
      && (m.value == 0 ==>
            && k'.sems[s] == m.(queue := m.queue + [p], arrived := m.arrived + [p])
            && k'.t.current != p && k'.pcs[p] == WaitResume(s)
            && p in k'.t.procs && k'.t.procs[p] == k.t.procs[p].(state := Blocked, executions := 0)
            && OthersAsBefore(k.t, k'.t, {p}))
  {
    hide Family, IdleRests, SemInv, Block;
    QueuedFacts(k);
    BlockEffect(k.t, k.t.current);
  }

  /** semPost adds one; with nobody queued it returns, otherwise the first waiter leaves the queue and
      runs. */
  lemma SemPostEffect(k: Machine, s: int)
    requires Inv(k) && Enabled(k, SemPost(s))
    ensures s in k.sems && k.t.current in k.t.procs && k.t.current in k.pcs
    ensures
      var p, m, k' := k.t.current, k.sems[s], Step(k, SemPost(s));
      && OnlySem(k, k', s) && !k'.semLock
      && (m.queue == [] ==>
            k'.t == k.t && k'.pcs == k.pcs && k'.sems[s] == m.(value := (m.value + 1) % 0x1_0000_0000, posted := m.posted + 1))
      && (m.queue != [] ==>
            && k'.sems[s] == m.(value := (m.value + 1) % 0x1_0000_0000, posted := m.posted + 1,
                                queue := m.queue[1..], served := m.served + [m.queue[0]])
            && k'.t.current == m.queue[0] && k'.pcs[p] == PostResume && k'.t == UnblockFirst(k.t, m.queue[0]))
  {
    hide Family, IdleRests, SemInv, UnblockFirst;
    QueuedFacts(k);
    if k.sems[s].queue != [] {
      assert k.sems[s].queue[0] in k.sems[s].queue;
      HandoffPostInv(k, s);
    }
  }

  /** The steps that take semaphore s. */
  ghost predicate Takes(k: Machine, e: Event, s: int) {
    || (e == SemWait(s) && s in k.sems && k.sems[s].value > 0)
    || (e.Resume? && k.t.current in k.pcs && k.pcs[k.t.current] == WaitResume(s))
  }

  /** Every step counts exactly: posts are posted, and only the steps that take a semaphore complete a wait. */
  lemma StepCountsExactly(k: Machine, e: Event, s: int)
    requires Inv(k) && Enabled(k, e) && s in k.sems
    ensures
      s in Step(k, e).sems &&
      var m, m' := k.sems[s], Step(k, e).sems[s];
      && m'.initial == m.initial
      && m'.posted == m.posted + (if e == SemPost(s) then 1 else 0)
      && m'.taken == m.taken + (if Takes(k, e, s) then 1 else 0)
      && (Takes(k, e, s) ==> m.value > 0 && m'.value == m.value - 1)
      && m'.arrived == m.arrived + (if e == SemWait(s) && m.value == 0 then [k.t.current] else [])
      && m'.served == m.served + (if e == SemPost(s) && m.queue != [] then [m.queue[0]] else [])
  {
    hide Family, IdleRests, SemInv, WellFormed, Dispatch, UnblockFirst, Block, Kill, Spawn, Wait, QuitCPU, BlockIO;
    match e {
      case SemWait(r) => SemWaitEffect(k, r);
      case SemPost(r) => SemPostEffect(k, r);
      case Resume =>
        ResumeInv(k);
        QueuedFacts(k);
      case _ =>
    }
  }

  // ---- the other calls -------------------------------------------------------------------------

  /** What a process or the keyboard wants of the event holds right after it. */
  ghost predicate Done(k: Machine, e: Event, k': Machine) {
    var c := k.t.current;
    match e
    case Tick => k'.t == Dispatch(k.t)
    case Keyboard =>
      OnlyRecords(k.t, k'.t, k.t.procs.Keys) && forall x :: x in k.t.procs ==>
        k'.t.procs[x] == if k.t.procs[x].state.BlockedIO? then k.t.procs[x].(state := Ready) else k.t.procs[x]
    case BlockPid(x) => Lives(k.t, x) ==> x in k'.t.procs && k'.t.procs[x].state.Blocked? && k'.t.current != x
    case UnblockPid(x) => Lives(k.t, x) ==> OnlyRecords(k.t, k'.t, {x}) && k'.t.procs[x] == k.t.procs[x].(state := Ready)
    case KillPid(x) => !Lives(k'.t, x) && k'.t.current != x
    case NicePid(x, o) => -20 <= o < 20 && x in k.t.procs ==> OnlyRecords(k.t, k'.t, {x}) && Quantum(k'.t.procs[x]) == 20 - o
    case WaitChildren =>
      c in k.t.procs && k.t.procs[c].children != 0 ==> c in k'.t.procs && k'.t.procs[c].state.Waiting? && k'.t.current != c
    case Quit =>
      c in k.t.procs && (exists y :: y in k.t.procs && y != c && k.t.procs[y].state.Ready?) ==> k'.t.current != c
    case ReadBlocks => c in k.t.procs ==> c in k'.t.procs && k'.t.procs[c].state.BlockedIO? && k'.t.current != c
    case SpawnChild(_) =>
      && k'.t.order == k.t.order + [k.t.nextPid] && k.t.nextPid in k'.t.procs && k'.t.procs[k.t.nextPid].state.Ready?
      && k'.t.procs[k.t.nextPid].ppid == c && k'.t.current == c
    case _ => true
  }

  lemma CallsAreDone(k: Machine, e: Event)
    requires Inv(k) && Enabled(k, e)
    ensures Done(k, e, Step(k, e))
  {
    hide Family, IdleRests, SemInv, Dispatch, Block, Unblock, Kill, Nice, Wait, QuitCPU, BlockIO, Spawn, UnblockIO,
      OthersAsBefore, WaitPath, PostPath, ResumePath, Distinct;
    QueuedFacts(k);
    RunningLives(k);
    match e {
      case Keyboard => UnblockIOEffect(k.t);
      case BlockPid(x) => BlockEffect(k.t, x);
      case UnblockPid(x) => UnblockEffect(k.t, x);
      case KillPid(x) => KillEffect(k.t, x);
      case NicePid(x, o) => NiceEffect(k.t, x, o);
      case WaitChildren => WaitEffect(k.t);
      case Quit => QuitCPUEffect(k.t);
      case ReadBlocks => BlockIOEffect(k.t);
      case SpawnChild(f) => SpawnEffect(k.t, f);
      case _ =>
    }
  }

  // ---- who lives ------------------------------------------------------------------------------

  /** Of the processes there are already, only the one a step kills dies, and none comes back. */
  ghost predicate DiesOnly(s: Table, r: Table, dead: set<int>) {
    && s.nextPid <= r.nextPid
    && forall x :: x < s.nextPid ==> (Lives(r, x) <==> Lives(s, x) && x !in dead)
  }

  lemma DispatchDies(s: Table, u: Table, dead: set<int>)
    requires WellFormed(u) && DiesOnly(s, u, dead)
    ensures DiesOnly(s, Dispatch(u), dead)
  {
    hide Dispatch;
    DispatchLives(u);
  }

  lemma OwnCallLives(k: Machine, e: Event)
    requires Inv(k) && Enabled(k, e) && (e.WaitChildren? || e.Quit? || e.ReadBlocks? || e.Tick? || e.BlockPid?)
    ensures DiesOnly(k.t, Step(k, e).t, {})
  {
    hide Family, IdleRests, SemInv, Dispatch, Distinct;
    var c := k.t.current;
    var u :=
      match e
      case WaitChildren => k.t.(procs := k.t.procs[c := k.t.procs[c].(state := Waiting)])
      case Quit => k.t.(procs := k.t.procs[c := k.t.procs[c].(executions := Quantum(k.t.procs[c]))])
      case ReadBlocks => k.t.(procs := k.t.procs[c := k.t.procs[c].(state := BlockedIO, executions := 0)])
      case BlockPid(_) => if c == 0 then k.t else k.t.(procs := k.t.procs[c := k.t.procs[c].(state := Blocked, executions := 0)])
      case _ => k.t;
    DispatchDies(k.t, u, {});
  }

  lemma PostLives(k: Machine, s: int)
    requires Inv(k) && Enabled(k, SemPost(s))
    ensures DiesOnly(k.t, Step(k, SemPost(s)).t, {})
  {
    hide Family, IdleRests, SemInv, Dispatch, UnblockFirst;
    SemPostEffect(k, s);
    QueuedFacts(k);
    if k.sems[s].queue != [] {
      var w := k.sems[s].queue[0];
      assert w in k.sems[s].queue;
      PromoteLives(k.t, w);
    }
  }

  lemma PromoteLives(t: Table, w: int)
    requires WellFormed(t) && Lives(t, w) && t.current in t.procs && w != t.current
    ensures DiesOnly(t, UnblockFirst(t, w), {})
  {
    hide Dispatch, MoveAfter, Distinct, WellFormed;
    PromoteKeeps(t, w);
    DispatchDies(t, Promote(t, w), {});
  }

  lemma WaitLives(k: Machine, s: int)
    requires Inv(k) && Enabled(k, SemWait(s))
    ensures DiesOnly(k.t, Step(k, SemWait(s)).t, {})
  {
    hide Family, IdleRests, SemInv, Dispatch, Distinct;
    QueuedFacts(k);
    var p := k.t.current;
    DispatchDies(k.t, k.t.(procs := k.t.procs[p := k.t.procs[p].(state := Blocked, executions := 0)]), {});
  }

  lemma KillLives(k: Machine, x: int)
    requires Inv(k) && Enabled(k, KillPid(x))
    ensures DiesOnly(k.t, Step(k, KillPid(x)).t, {x})
  {
    hide Family, IdleRests, SemInv, Dispatch, Distinct, Bury;
    if x in k.t.procs {
      BuryEffect(k.t.procs, x);
      BereavedState(k.t.procs);
      hide Bereaved;
      DispatchDies(k.t, k.t.(procs := Bury(k.t.procs, x)), {x});
    }
  }

  lemma StepLives(k: Machine, e: Event)
    requires Inv(k) && Enabled(k, e)
    ensures DiesOnly(k.t, Step(k, e).t, if e.KillPid? then {e.pid} else {})
  {
    hide Family, IdleRests, SemInv, Dispatch, Distinct, UnblockFirst, Kill, Block;
    match e {
      case KillPid(x) => KillLives(k, x);
      case SemWait(s) => WaitLives(k, s);
      case SemPost(s) => PostLives(k, s);
      case UnblockPid(_) =>
      case NicePid(_, _) =>
      case Keyboard =>
      case Resume =>
      case SemOpen(_, _) =>
      case SpawnChild(_) =>
      case _ => OwnCallLives(k, e);
    }
  }

  /** A killed process never runs again, in any continuation of the run. */
  lemma {:induction false} KilledNeverRuns(ks: seq<Machine>, es: seq<Event>, i: nat, j: nat, x: int)
    requires Run(ks, es) && i < j < |ks| && es[i] == KillPid(x) && x in ks[i].t.procs
    ensures !Lives(ks[j].t, x) && ks[j].t.current != x && 0 < x < ks[j].t.nextPid
    decreases j
  {
    hide Inv, Enabled, Step;
    ReachableInv(ks, es, j - 1);
    ReachableInv(ks, es, j);
    assert Follows(ks[j - 1], es[j - 1], ks[j]);
    StepLives(ks[j - 1], es[j - 1]);
    if j == i + 1 {
      ListedBelow(ks[i], x);
    } else {
      KilledNeverRuns(ks, es, i, j - 1, x);
    }
    RunningLives(ks[j]);
  }

  lemma ListedBelow(k: Machine, x: int)
    requires Inv(k) && x in k.t.procs
    ensures 0 < x < k.t.nextPid
  {
  }

  lemma RunningLives(k: Machine)
    requires Inv(k)
    ensures k.t.current != 0 ==> Lives(k.t, k.t.current)
    ensures k.t.current == 0 ==> 0 !in k.t.procs
  {
  }

  // ---- a wait ends only by taking -------------------------------------------------------------

  /** Nobody's place in the kernel moves but that of the process that runs. */
  lemma StepPcs(k: Machine, e: Event, x: int)
    requires Inv(k) && Enabled(k, e) && x in k.t.procs && x != k.t.current
    ensures x in k.pcs && x in Step(k, e).pcs && Step(k, e).pcs[x] == k.pcs[x]
  {
    hide Family, IdleRests, Dispatch, UnblockFirst, Block, Kill, Wait, QuitCPU, BlockIO, Distinct;
    QueuedFacts(k);
  }

  /** p is inside semWait(s). */
  ghost predicate InWait(k: Machine, p: int, s: int) {
    Lives(k.t, p) && p in k.pcs && k.pcs[p] == WaitResume(s)
  }

  lemma StillInWait(k: Machine, e: Event, p: int, s: int)
    requires Inv(k) && Enabled(k, e) && InWait(k, p, s) && !(k.t.current == p && e.Resume?)
    ensures InWait(Step(k, e), p, s) && k.t.current != p
  {
    hide Family, IdleRests, Dispatch, UnblockFirst, Block, Kill, Step, Distinct;
    assert Accounted(k, p, s);
    StepLives(k, e);
    ListedBelow(k, p);
    StepPcs(k, e, p);
  }

  /** A process that called semWait(s) is back in its own code only after a step of its own that took s. */
  lemma BackOnlyAfterTaking(ks: seq<Machine>, es: seq<Event>, i: nat, j: nat, s: int) returns (m: nat)
    requires Run(ks, es) && i < j < |ks| && es[i] == SemWait(s)
    requires ks[i].t.current in ks[j].pcs && ks[j].pcs[ks[i].t.current].User?
    ensures i <= m < j && ks[m].t.current == ks[i].t.current && Takes(ks[m], es[m], s)
    ensures s in ks[m].sems && s in ks[m + 1].sems && ks[m + 1].sems[s].taken == ks[m].sems[s].taken + 1
  {
    hide Inv, Enabled, Step;
    ReachableInv(ks, es, i);
    ReachableInv(ks, es, i + 1);
    assert Follows(ks[i], es[i], ks[i + 1]);
    SemWaitEffect(ks[i], s);
    if ks[i].sems[s].value > 0 {
      m := i;
    } else {
      m := TakeBetween(ks, es, i + 1, j, ks[i].t.current, s);
    }
    ReachableInv(ks, es, m);
    assert Follows(ks[m], es[m], ks[m + 1]);
    WaitedOnOpen(ks[m], ks[m].t.current, s);
    StepCountsExactly(ks[m], es[m], s);
  }

  lemma WaitedOnOpen(k: Machine, p: int, s: int)
    requires Inv(k)
    ensures InWait(k, p, s) ==> s in k.sems
  {
    assert InWait(k, p, s) ==> Accounted(k, p, s);
  }

  lemma {:induction false} TakeBetween(ks: seq<Machine>, es: seq<Event>, t: nat, j: nat, p: int, s: int) returns (m: nat)
    requires Run(ks, es) && t < j < |ks| && InWait(ks[t], p, s) && p in ks[j].pcs && ks[j].pcs[p].User?
    ensures t <= m < j && ks[m].t.current == p && es[m].Resume? && InWait(ks[m], p, s)
    decreases j - t
  {
    hide Inv, Enabled, Step;
    ReachableInv(ks, es, t);
    assert Follows(ks[t], es[t], ks[t + 1]);
    if ks[t].t.current == p && es[t].Resume? {
      m := t;
    } else {
      StillInWait(ks[t], es[t], p, s);
      m := TakeBetween(ks, es, t + 1, j, p, s);
    }
  }
}
