/** semWait and semPost as they run (Kernel/utils/sem.c), on top of the linked-list scheduler,
    refining the steps of module Kernel. */
module SemKernel {
  import opened Rotation
  import opened Sched
  import opened Kernel
  import opened SchedInvariants
  import opened KernelTheorems
  import Scheduler

  // ---- the waiter queue as linked nodes ------------------------------------------------

  /** Appending a node for p (lines 110-117). */
  lemma QueueAppend(nodes: map<int, int>, entering: int, last: int, q: seq<int>, p: int)
    requires Scheduler.Linked(nodes, entering, last, q) && Distinct(q) && 0 !in q && p !in q && p != 0
    ensures
      var n1 := nodes[p := 0];
      Scheduler.Linked(if last != 0 then n1[last := p] else n1, if entering == 0 then p else entering, p, q + [p])
  {
    if q == [] {
      assert q + [p] == [p] && Next([p], p) == 0;
    } else {
      Scheduler.LinkedAppend(nodes, entering, last, q, p);
      assert last in q;
    }
  }

  /** Popping the first node (lines 133-136). */
  lemma QueuePop(nodes: map<int, int>, entering: int, last: int, q: seq<int>)
    requires Scheduler.Linked(nodes, entering, last, q) && Distinct(q) && 0 !in q && q != []
    ensures entering in nodes && entering == q[0]
    ensures Scheduler.Linked(nodes, nodes[entering], if nodes[entering] == 0 then 0 else last, q[1..])
  {
    hide Next, IndexOf;
    AtIndex(q, 0);
    IndexUnique(q, 0);
    assert q[0] in q && |q| > 1 ==> q[1] != 0 && q[|q| - 1] != q[0];
    Scheduler.LinkedRemove(nodes, entering, last, q, q[0], nodes, nodes[q[0]], if last == q[0] then 0 else last);
    assert RemoveOne(q, q[0]) == q[1..];
  }

  /** A queue does not notice changes to nodes that are not in it. */
  lemma QueueOther(nodes: map<int, int>, nodes': map<int, int>, entering: int, last: int, q: seq<int>)
    requires Scheduler.Linked(nodes, entering, last, q)
    requires forall x :: x in q && x in nodes ==> x in nodes' && nodes'[x] == nodes[x]
    ensures Scheduler.Linked(nodes', entering, last, q)
  {
  }

  /** No process is queued twice. */
  lemma QueuesApart(k: Machine, r: int, s: int)
    requires SemInv(k) && 0 !in k.t.procs && r in k.sems && s in k.sems
    ensures Distinct(k.sems[s].queue) && 0 !in k.sems[s].queue && k.t.current !in k.sems[s].queue
    ensures r != s ==> forall x :: x in k.sems[r].queue ==> x !in k.sems[s].queue
  {
    assert SemOk(k, r) && SemOk(k, s);
    forall x | x in k.sems[r].queue ensures Waits(k, x, r) {}
    forall x | x in k.sems[s].queue ensures Waits(k, x, s) {}
  }

  /** What semPost has to do, in its two cases. */
  lemma PostStep(k: Machine, s: int)
    requires Inv(k) && Enabled(k, Event.SemPost(s))
    ensures s in k.sems && Distinct(k.sems[s].queue) && 0 !in k.sems[s].queue
    ensures !k.semLock && WellFormed(k.t) && k.t.current in k.t.procs && k.t.current != 0 && k.t.current !in k.sems[s].queue
    ensures
      var m := k.sems[s];
      var m1 := m.(value := (m.value + 1) % UINT, posted := m.posted + 1);
      && (m.queue == [] ==> Step(k, Event.SemPost(s)) == Machine(k.t, k.sems[s := m1], k.pcs, false))
      && (m.queue != [] ==>
          && m.queue[0] in k.t.procs
          && Step(k, Event.SemPost(s)) ==
             Machine(UnblockFirst(k.t, m.queue[0]), k.sems[s := m1.(queue := m.queue[1..], served := m.served + [m.queue[0]])],
                     k.pcs[k.t.current := PostResume], false))
  {
    hide Family, IdleRests, SemInv, UnblockFirst, Distinct;
    QueuedFacts(k);
    QueuesApart(k, s, s);
    if k.sems[s].queue != [] {
      var w := k.sems[s].queue[0];
      assert w in k.sems[s].queue && w in k.t.procs && IsAlive(k.t, w);
    }
  }

  lemma OpenStep(k: Machine, s: int, v: nat)
    requires Inv(k) && Enabled(k, Event.SemOpen(s, v))
    ensures !k.semLock
    ensures Step(k, Event.SemOpen(s, v)) ==
            if s in k.sems then k else Machine(k.t, k.sems[s := Sem(v, [], v, 0, 0, [], [])], k.pcs, false)
  {
    hide SemInv, Family, IdleRests, WellFormed;
  }

  /** What is left to do when a process is dispatched inside semWait or semPost. */
  lemma ResumeStep(k: Machine)
    requires Inv(k) && Enabled(k, Event.Resume)
    ensures !k.semLock && k.t.current in k.pcs
    ensures
      var p := k.t.current;
      var pcs := k.pcs[p := User];
      if k.pcs[p].WaitResume? then
        var s := k.pcs[p].sem;
        s in k.sems &&
        var m := k.sems[s].(value := (k.sems[s].value - 1) % UINT, taken := k.sems[s].taken + 1);
        Step(k, Event.Resume) == Machine(k.t, k.sems[s := m], pcs, false)
      else Step(k, Event.Resume) == Machine(k.t, k.sems, pcs, false)
  {
    hide Family, IdleRests, WellFormed;
    QueuedFacts(k);
    assert k.pcs[k.t.current].WaitResume? ==> Accounted(k, k.t.current, k.pcs[k.t.current].sem);
  }

  lemma SchedFacts(sched: Scheduler.Scheduler)
    requires sched.Valid()
    ensures WellFormed(sched.Abs()) && (sched.currentProcess != 0 ==> sched.Abs().current in sched.Abs().procs)
  {
  }

  lemma EmptyQueue(nodes: map<int, int>)
    ensures Scheduler.Linked(nodes, 0, 0, [])
  {
  }

  lemma EmptyIff(nodes: map<int, int>, entering: int, last: int, q: seq<int>)
    requires Scheduler.Linked(nodes, entering, last, q)
    ensures 0 !in q ==> (entering == 0 <==> q == [])
  {
    assert q != [] ==> q[0] in q;
  }

  lemma LastIn(nodes: map<int, int>, entering: int, last: int, q: seq<int>)
    requires Scheduler.Linked(nodes, entering, last, q)
    ensures last != 0 ==> last in q
  {
  }

  class Semaphores {
    const sched: Scheduler.Scheduler
    var values: map<int, nat>      // sem->value
    var entering: map<int, int>    // sem->entering, 0 for NULL
    var lasts: map<int, int>       // sem->last
    var nodes: map<int, int>       // next pointers of the waiters' nodes, a node being its process
    var pcs: map<int, Pc>
    var semLock: int

    ghost var sems: map<int, Sem>

    ghost function Abs(): Machine
      reads this, sched
    {
      Machine(sched.Abs(), sems, pcs, semLock != 0)
    }

    /** The fields of semaphore s hold its value and its queue. */
    ghost predicate Holds(s: int)
      reads this
    {
      && s in sems && s in values && s in entering && s in lasts
      && values[s] == sems[s].value && Scheduler.Linked(nodes, entering[s], lasts[s], sems[s].queue)
    }

    ghost predicate AllHold()
      reads this
    {
      values.Keys == sems.Keys && forall s :: s in sems ==> Holds(s)
    }

    ghost predicate Valid()
      reads this, sched
    {
      sched.Valid() && Inv(Abs()) && AllHold()
    }

    /** A kernel with no semaphore yet, over a freshly initialised scheduler. */
    constructor ()
      ensures Valid() && fresh(sched) && Abs() == Init()
    {
      sched := new Scheduler.Scheduler();
      values, entering, lasts, nodes := map[], map[], map[], map[];
      sems, pcs, semLock := map[], map[IDLE := User], 0;
      new;
      InitInv();
    }

    /** semOpen: one that is open already is left as it is, whatever its value (lines 32-35). */
    method SemOpen(s: int, v: nat)
      requires Valid() && Enabled(Abs(), Event.SemOpen(s, v))
      modifies this
      ensures Valid() && Abs() == Step(old(Abs()), Event.SemOpen(s, v))
    {
      hide Inv, Enabled, Step, Scheduler.Linked;
      ghost var k := Abs();
      StepInv(k, Event.SemOpen(s, v));
      OpenStep(k, s, v);
      EnterRegion();
      if s in values {
        LeaveRegion();
        return;
      }
      Install(s, v);
      LeaveRegion();
    }

    /** The fields of a new semaphore (lines 44-46). */
    method Install(s: int, v: nat)
      requires s !in sems && AllHold()
      modifies this`values, this`entering, this`lasts, this`sems
      ensures sems == old(sems)[s := Sem(v, [], v, 0, 0, [], [])] && AllHold()
    {
      hide Scheduler.Linked;
      values := values[s := v];
      entering, lasts := entering[s := 0], lasts[s := 0];
      sems := sems[s := Sem(v, [], v, 0, 0, [], [])];
      EmptyQueue(nodes);
      assert forall r :: r in sems && r != s ==> old(Holds(r));
    }

    /** enter_region: with the lock held it would spin forever, interrupts being off. */
    method EnterRegion()
      requires semLock == 0
      modifies this`semLock
      ensures semLock == 1
    {
      semLock := 1;
    }

    /** leave_region */
    method LeaveRegion()
      modifies this`semLock
      ensures semLock == 0
    {
      semLock := 0;
    }

    /** semWait, up to its return or to the switch inside block. */
    method SemWait(s: int)
      requires Valid() && Enabled(Abs(), Event.SemWait(s))
      modifies this, sched
      ensures Valid() && Abs() == Step(old(Abs()), Event.SemWait(s))
    {
      hide Family, IdleRests, SemInv, Block, WellFormed, Scheduler.Linked;
      ghost var k := Abs();
      StepInv(k, Event.SemWait(s));
      QueuedFacts(k);
      EnterRegion();
      assert old(Holds(s));
      if values[s] > 0 {
        Change(s, values[s] - 1, sems[s].(value := values[s] - 1, taken := sems[s].taken + 1));
      } else {
        LeaveRegion();
        var pid := sched.currentProcess;
        Join(s, pid, k);
        pcs := pcs[pid := WaitResume(s)];
        var ok := sched.Block(pid);
      }
      LeaveRegion();
    }

    /** A change of the value only. */
    method Change(s: int, v: nat, ghost m: Sem)
      requires s in sems && AllHold() && m.value == v && m.queue == sems[s].queue
      modifies this`values, this`sems
      ensures sems == old(sems)[s := m] && AllHold()
    {
      hide Scheduler.Linked;
      assert forall r :: r in sems ==> Holds(r);
      values := values[s := v];
      sems := sems[s := m];
      assert forall r :: r in sems ==> old(Holds(r));
    }

    /** The caller's node goes to the end of the queue (lines 110-117). */
    method Join(s: int, pid: int, ghost k: Machine)
      requires s in sems && AllHold() && sems == k.sems
      requires SemInv(k) && 0 !in k.t.procs && k.t.current == pid != 0
      modifies this`entering, this`lasts, this`nodes, this`sems
      ensures sems == old(sems)[s := old(sems)[s].(queue := old(sems)[s].queue + [pid], arrived := old(sems)[s].arrived + [pid])]
      ensures AllHold()
    {
      hide Scheduler.Linked, SemInv;
      ghost var q, n0 := sems[s].queue, nodes;
      assert old(Holds(s));
      QueuesApart(k, s, s);
      QueueAppend(nodes, entering[s], lasts[s], q, pid);
      LastIn(nodes, entering[s], lasts[s], q);
      nodes := nodes[pid := 0];
      if lasts[s] != 0 {
        nodes := nodes[lasts[s] := pid];
      }
      entering := if entering[s] == 0 then entering[s := pid] else entering;
      lasts := lasts[s := pid];
      sems := sems[s := sems[s].(queue := q + [pid], arrived := sems[s].arrived + [pid])];
      forall r | r in sems ensures Holds(r) {
        if r != s {
          assert old(Holds(r));
          QueuesApart(k, r, s);
          QueuesApart(k, s, r);
          QueueOther(n0, nodes, entering[r], lasts[r], sems[r].queue);
        }
      }
    }

    /** semPost, up to its return or to the switch inside unblockFirst. */
    method SemPost(s: int)
      requires Valid() && Enabled(Abs(), Event.SemPost(s))
      modifies this, sched
      ensures Valid() && Abs() == Step(old(Abs()), Event.SemPost(s))
    {
      hide Inv, Enabled, Step, UnblockFirst, Scheduler.Linked;
      ghost var k := Abs();
      StepInv(k, Event.SemPost(s));
      PostStep(k, s);
      EnterRegion();
      assert old(Holds(s));
      EmptyIff(nodes, entering[s], lasts[s], sems[s].queue);
      ghost var m := sems[s];
      Change(s, (values[s] + 1) % UINT, m.(value := (m.value + 1) % UINT, posted := m.posted + 1));
      if entering[s] != 0 {
        HandOver(s);
        assert sems == k.sems[s := sems[s]];
      }
      LeaveRegion();
    }

    /** Lines 133-138: the first waiter leaves the queue and is dispatched. */
    method HandOver(s: int)
      requires sched.Valid() && s in sems && AllHold()
      requires Distinct(sems[s].queue) && 0 !in sems[s].queue && sems[s].queue != []
      requires sched.currentProcess != 0 && sched.currentProcess !in sems[s].queue
      modifies this, sched
      ensures sched.Valid() && AllHold() && semLock == 0
      ensures sched.Abs() == UnblockFirst(old(sched.Abs()), old(sems)[s].queue[0])
      ensures sems == old(sems)[s := old(sems)[s].(queue := old(sems)[s].queue[1..], served := old(sems)[s].served + [old(sems)[s].queue[0]])]
      ensures pcs == old(pcs)[old(sched.currentProcess) := PostResume]
    {
      hide UnblockFirst, Scheduler.Linked, WellFormed, Distinct;
      SchedFacts(sched);
      var w := Pop(s);
      LeaveRegion();
      pcs := pcs[sched.currentProcess := PostResume];
      var ok := sched.UnblockFirst(w);
    }

    /** The first node leaves the queue (lines 133-136). */
    method Pop(s: int) returns (w: int)
      requires s in sems && AllHold()
      requires Distinct(sems[s].queue) && 0 !in sems[s].queue && sems[s].queue != []
      modifies this`entering, this`lasts, this`sems
      ensures w == old(sems)[s].queue[0]
      ensures sems == old(sems)[s := old(sems)[s].(queue := old(sems)[s].queue[1..], served := old(sems)[s].served + [w])]
      ensures AllHold()
    {
      hide Scheduler.Linked;
      ghost var q := sems[s].queue;
      assert old(Holds(s));
      QueuePop(nodes, entering[s], lasts[s], q);
      w := entering[s];
      entering := entering[s := nodes[w]];
      if entering[s] == 0 {
        lasts := lasts[s := 0];
      }
      sems := sems[s := sems[s].(queue := q[1..], served := sems[s].served + [w])];
      assert forall r :: r in sems ==> old(Holds(r));
    }

    /** The rest of semWait (lines 120-124) or of semPost (lines 139-143). */
    method Continue()
      requires Valid() && Enabled(Abs(), Event.Resume)
      modifies this
      ensures Valid() && Abs() == Step(old(Abs()), Event.Resume)
    {
      hide Inv, Enabled, Step, Scheduler.Linked;
      ghost var k := Abs();
      StepInv(k, Event.Resume);
      ResumeStep(k);
      EnterRegion();
      var p := sched.currentProcess;
      if pcs[p].WaitResume? {
        var s := pcs[p].sem;
        assert old(Holds(s));
        Change(s, (values[s] - 1) % UINT, sems[s].(value := (sems[s].value - 1) % UINT, taken := sems[s].taken + 1));
      }
      pcs := pcs[p := User];
      LeaveRegion();
    }

    /** The timer interrupt. */
    method TimerTick()
      requires Valid() && Enabled(Abs(), Event.Tick)
      modifies this, sched
      ensures Valid() && Abs() == Step(old(Abs()), Event.Tick)
    {
      hide Family, IdleRests, SemInv, Dispatch, WellFormed, Scheduler.Linked;
      StepInv(Abs(), Event.Tick);
      sched.NextProcess();
    }

    /** The keyboard interrupt wakes the readers. */
    method Keyboard()
      requires Valid() && Enabled(Abs(), Event.Keyboard)
      modifies sched
      ensures Valid() && Abs() == Step(old(Abs()), Event.Keyboard)
    {
      hide Family, IdleRests, SemInv, Dispatch, Distinct, Scheduler.Linked, Block, Unblock, Kill, Nice, Wait, QuitCPU, BlockIO, UnblockIO;
      StepInv(Abs(), Event.Keyboard);
      sched.UnblockIO();
    }

    /** The system calls on processes: block. */
    method SysBlock(pid: int)
      requires Valid() && Enabled(Abs(), Event.BlockPid(pid))
      modifies sched
      ensures Valid() && Abs() == Step(old(Abs()), Event.BlockPid(pid))
    {
      hide Family, IdleRests, SemInv, Dispatch, Distinct, Scheduler.Linked, Block, Unblock, Kill, Nice, Wait, QuitCPU, BlockIO, UnblockIO;
      StepInv(Abs(), Event.BlockPid(pid));
      var ok := sched.Block(pid);
    }

    /** unblock */
    method SysUnblock(pid: int)
      requires Valid() && Enabled(Abs(), Event.UnblockPid(pid))
      modifies sched
      ensures Valid() && Abs() == Step(old(Abs()), Event.UnblockPid(pid))
    {
      hide Family, IdleRests, SemInv, Dispatch, Distinct, Scheduler.Linked, Block, Unblock, Kill, Nice, Wait, QuitCPU, BlockIO, UnblockIO;
      StepInv(Abs(), Event.UnblockPid(pid));
      var ok := sched.Unblock(pid);
    }

    /** kill */
    method SysKill(pid: int)
      requires Valid() && Enabled(Abs(), Event.KillPid(pid))
      modifies sched
      ensures Valid() && Abs() == Step(old(Abs()), Event.KillPid(pid))
    {
      hide Family, IdleRests, SemInv, Dispatch, Distinct, Scheduler.Linked, Block, Unblock, Kill, Nice, Wait, QuitCPU, BlockIO, UnblockIO;
      StepInv(Abs(), Event.KillPid(pid));
      var ok := sched.Kill(pid);
    }

    /** nice */
    method SysNice(pid: int, offset: int)
      requires Valid() && Enabled(Abs(), Event.NicePid(pid, offset))
      modifies sched
      ensures Valid() && Abs() == Step(old(Abs()), Event.NicePid(pid, offset))
    {
      hide Family, IdleRests, SemInv, Dispatch, Distinct, Scheduler.Linked, Block, Unblock, Kill, Nice, Wait, QuitCPU, BlockIO, UnblockIO;
      StepInv(Abs(), Event.NicePid(pid, offset));
      var ok := sched.Nice(pid, offset);
    }

    /** wait */
    method SysWait()
      requires Valid() && Enabled(Abs(), Event.WaitChildren)
      modifies sched
      ensures Valid() && Abs() == Step(old(Abs()), Event.WaitChildren)
    {
      hide Family, IdleRests, SemInv, Dispatch, Distinct, Scheduler.Linked, Block, Unblock, Kill, Nice, Wait, QuitCPU, BlockIO, UnblockIO;
      StepInv(Abs(), Event.WaitChildren);
      sched.Wait();
    }

    /** quitCPU */
    method SysQuitCPU()
      requires Valid() && Enabled(Abs(), Event.Quit)
      modifies sched
      ensures Valid() && Abs() == Step(old(Abs()), Event.Quit)
    {
      hide Family, IdleRests, SemInv, Dispatch, Distinct, Scheduler.Linked, Block, Unblock, Kill, Nice, Wait, QuitCPU, BlockIO, UnblockIO;
      StepInv(Abs(), Event.Quit);
      var ok := sched.QuitCPU();
    }

    /** a read that finds no input: blockIO */
    method SysRead()
      requires Valid() && Enabled(Abs(), Event.ReadBlocks)
      modifies sched
      ensures Valid() && Abs() == Step(old(Abs()), Event.ReadBlocks)
    {
      hide Family, IdleRests, SemInv, Dispatch, Distinct, Scheduler.Linked, Block, Unblock, Kill, Nice, Wait, QuitCPU, BlockIO, UnblockIO;
      StepInv(Abs(), Event.ReadBlocks);
      var ok := sched.BlockIO();
    }

    /** loadProcess */
    method SysLoadProcess(foreground: bool) returns (pid: int)
      requires Valid() && Enabled(Abs(), Event.SpawnChild(foreground))
      modifies this`pcs, sched
      ensures Valid() && Abs() == Step(old(Abs()), Event.SpawnChild(foreground)) && pid == old(sched.Abs()).nextPid
    {
      hide Family, IdleRests, SemInv, Distinct, Scheduler.Linked, Spawn;
      StepInv(Abs(), Event.SpawnChild(foreground));
      pid := sched.EnqueueProcess(foreground);
      pcs := pcs[pid := User];
    }
  }
}
