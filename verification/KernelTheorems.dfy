/** What the scheduler and the semaphores keep together, over every run. */
module KernelTheorems {
  import opened Rotation
  import opened Sched
  import opened SchedWalk
  import opened SchedInvariants
  import opened Kernel

  // ---- queued waiters are left alone --------------------------------------------------

  ghost predicate StillBlocked(t: Table, x: int) {
    x in t.procs && t.procs[x].state.Blocked? && x != t.current
  }

  ghost predicate Undisturbed(k: Machine, t: Table) {
    forall s, x :: s in k.sems && x in k.sems[s].queue ==> StillBlocked(t, x)
  }

  ghost predicate NoFlight(k: Machine) {
    k.t.current == 0 || (k.t.current in k.pcs && !k.pcs[k.t.current].WaitResume?)
  }

  /** A switch that leaves the queued waiters blocked keeps the semaphores consistent, and whoever
      runs next is not in the middle of a wait. */
  lemma SwitchKeeps(k: Machine, t: Table)
    requires SemInv(k) && NoFlight(k) && Undisturbed(k, t)
    requires 0 !in k.t.procs && forall x :: x in t.procs ==> x in k.t.procs
    requires t.current == 0 || t.current in t.procs
    ensures SemInv(k.(t := t)) && NoFlight(k.(t := t))
  {
    hide Distinct;
    var k' := k.(t := t);
    assert t.current in t.procs && k.pcs[t.current].WaitResume? ==> Accounted(k, t.current, k.pcs[t.current].sem);
    forall x | x in t.procs && k.pcs[x].WaitResume? ensures Accounted(k', x, k.pcs[x].sem) {
      assert Accounted(k, x, k.pcs[x].sem);
    }
    forall s | s in k.sems ensures SemOk(k', s) {
      assert SemOk(k, s);
      forall x | x in k.sems[s].queue ensures Waits(k', x, s) {
        assert Waits(k, x, s) && StillBlocked(t, x);
      }
    }
  }

  lemma DispatchCalm(t: Table, x: int)
    requires WellFormed(t) && x in t.procs && t.procs[x].state.Blocked? && x != IDLE
    ensures StillBlocked(Dispatch(t), x)
  {
    hide Dispatch, Chosen;
    DispatchEffect(t);
    var r := Dispatch(t);
    assert RecordAfter(t, Chosen(t), x, r.procs[x]);
  }

  /** The part of Inv about the table alone. */
  ghost predicate TableInv(t: Table) {
    && WellFormed(t) && IdleRests(t) && Family(t.procs)
    && (t.current != 0 ==> t.procs[t.current].state.Ready?)
  }

  /** t1 is what the running process of k left behind when it called forceTimer. */
  ghost predicate ReadyToSwitch(k: Machine, t1: Table) {
    && WellFormed(t1) && IdleRests(t1) && Family(t1.procs) && t1.procs.Keys == k.t.procs.Keys
    && forall s, x :: s in k.sems && x in k.sems[s].queue ==> x in t1.procs && t1.procs[x].state.Blocked? && x != IDLE
  }

  lemma SwitchInv(k: Machine, t1: Table)
    requires Inv(k) && NoFlight(k) && ReadyToSwitch(k, t1)
    ensures Inv(k.(t := Dispatch(t1)))
  {
    hide Dispatch, Chosen, Family, IdleRests, Distinct, SemInv;
    DispatchKeeps(t1);
    IdleDispatch(t1);
    FamilyDispatch(t1);
    DispatchEffect(t1);
    forall s, x | s in k.sems && x in k.sems[s].queue ensures StillBlocked(Dispatch(t1), x) {
      DispatchCalm(t1, x);
    }
    SwitchKeeps(k, Dispatch(t1));
  }

  /** Facts about queued waiters that every event uses. */
  lemma QueuedFacts(k: Machine)
    requires Inv(k)
    ensures forall s, x :: s in k.sems && x in k.sems[s].queue ==>
      x in k.t.procs && k.t.procs[x].state.Blocked? && x != IDLE && x != k.t.current
    ensures 0 !in k.t.procs && (k.t.current != 0 ==> k.t.current in k.t.procs && k.t.current in k.pcs)
  {
    forall s, x | s in k.sems && x in k.sems[s].queue
      ensures x in k.t.procs && k.t.procs[x].state.Blocked? && x != IDLE && x != k.t.current
    {
      assert SemOk(k, s) && Waits(k, x, s);
    }
  }

  /** A record change that keeps the table's own invariants. */
  lemma RecordKeeps(t: Table, x: int, p: Proc)
    requires WellFormed(t) && IdleRests(t) && Family(t.procs) && x in t.procs && x != IDLE
    requires p.ppid == t.procs[x].ppid && p.children == t.procs[x].children
    requires p.state.Dead? <==> t.procs[x].state.Dead?
    requires p.state.Waiting? ==> p.children != 0
    ensures WellFormed(t.(procs := t.procs[x := p])) && IdleRests(t.(procs := t.procs[x := p]))
    ensures Family(t.procs[x := p])
  {
    FamilyRecord(t.procs, x, p);
  }

  /** The running process changes its own record and switches: block, wait, quitCPU, blockIO. */
  lemma OwnRecordThenSwitch(k: Machine, p: Proc)
    requires Inv(k) && NoFlight(k) && k.t.current != 0 && k.t.current != IDLE
    requires
      var c := k.t.procs[k.t.current];
      p.ppid == c.ppid && p.children == c.children && !p.state.Dead? && (p.state.Waiting? ==> p.children != 0)
    ensures Inv(k.(t := Dispatch(k.t.(procs := k.t.procs[k.t.current := p]))))
  {
    hide Dispatch, Family, IdleRests, Distinct, SemInv;
    QueuedFacts(k);
    RecordKeeps(k.t, k.t.current, p);
    SwitchInv(k, k.t.(procs := k.t.procs[k.t.current := p]));
  }

  /** Somebody else's record changes, with no switch. */
  lemma OtherRecord(k: Machine, x: int, p: Proc)
    requires Inv(k) && NoFlight(k) && x in k.t.procs && x != IDLE
    requires p.ppid == k.t.procs[x].ppid && p.children == k.t.procs[x].children
    requires p.state.Dead? <==> k.t.procs[x].state.Dead?
    requires p.state.Waiting? ==> p.children != 0
    requires Queued(k, x) ==> p.state.Blocked?
    requires x == k.t.current ==> p.state.Ready?
    ensures Inv(k.(t := k.t.(procs := k.t.procs[x := p])))
  {
    hide Family, IdleRests, Distinct, SemInv;
    QueuedFacts(k);
    RecordKeeps(k.t, x, p);
    var t := k.t.(procs := k.t.procs[x := p]);
    forall s, y | s in k.sems && y in k.sems[s].queue ensures StillBlocked(t, y) {
      if y == x { assert Queued(k, x); }
    }
    SwitchKeeps(k, t);
  }

  lemma TickInv(k: Machine)
    requires Inv(k) && Enabled(k, Tick)
    ensures Inv(Step(k, Tick))
  {
    hide Dispatch, Family, IdleRests, Distinct, SemInv;
    QueuedFacts(k);
    SwitchInv(k, k.t);
  }

  lemma KeyboardInv(k: Machine)
    requires Inv(k) && Enabled(k, Keyboard)
    ensures Inv(Step(k, Keyboard))
  {
    hide Family, Distinct, SemInv;
    QueuedFacts(k);
    FamilyUnblockIO(k.t);
    SwitchKeeps(k, UnblockIO(k.t));
  }

  lemma BlockInv(k: Machine, x: int)
    requires Inv(k) && Enabled(k, BlockPid(x))
    ensures Inv(Step(k, BlockPid(x)))
  {
    hide Dispatch, Family, IdleRests, Distinct, SemInv;
    QueuedFacts(k);
    if IsAlive(k.t, x) {
      var p := k.t.procs[x].(state := Blocked);
      if x == k.t.current { OwnRecordThenSwitch(k, p.(executions := 0)); } else { OtherRecord(k, x, p); }
    }
  }

  lemma UnblockInv(k: Machine, x: int)
    requires Inv(k) && Enabled(k, UnblockPid(x))
    ensures Inv(Step(k, UnblockPid(x)))
  {
    hide Family, IdleRests, Distinct, SemInv, Queued;
    QueuedFacts(k);
    if IsAlive(k.t, x) { OtherRecord(k, x, k.t.procs[x].(state := Ready)); }
  }

  lemma NiceInv(k: Machine, x: int, offset: int)
    requires Inv(k) && Enabled(k, NicePid(x, offset))
    ensures Inv(Step(k, NicePid(x, offset)))
  {
    hide Family, IdleRests, Distinct, SemInv;
    QueuedFacts(k);
    if x in k.t.procs && -20 <= offset < 20 {
      assert FamilyAt(k.t.procs, x) by { FamilyOf(k.t.procs, x); }
      OtherRecord(k, x, k.t.procs[x].(priority := offset + 20));
    }
  }

  lemma FamilyOf(m: map<int, Proc>, x: int)
    requires Family(m) && x in m
    ensures FamilyAt(m, x)
  {
  }

  lemma OwnSwitchInv(k: Machine, e: Event)
    requires Inv(k) && Enabled(k, e) && (e.WaitChildren? || e.Quit? || e.ReadBlocks?)
    ensures Inv(Step(k, e))
  {
    hide Dispatch, Family, IdleRests, Distinct, SemInv;
    QueuedFacts(k);
    var c := k.t.procs[k.t.current];
    FamilyOf(k.t.procs, k.t.current);
    match e {
      case WaitChildren => if c.children != 0 { OwnRecordThenSwitch(k, c.(state := Waiting)); }
      case Quit => OwnRecordThenSwitch(k, c.(executions := Quantum(c)));
      case ReadBlocks => OwnRecordThenSwitch(k, c.(state := BlockedIO, executions := 0));
    }
  }

  lemma BuryKeeps(t: Table, x: int)
    requires WellFormed(t) && IdleRests(t) && Family(t.procs) && x in t.procs && x != IDLE && !t.procs[x].state.Dead?
    ensures WellFormed(t.(procs := Bury(t.procs, x))) && IdleRests(t.(procs := Bury(t.procs, x)))
    ensures Family(Bury(t.procs, x)) && Bury(t.procs, x).Keys == t.procs.Keys
    ensures forall y :: y in t.procs && y != x && !t.procs[y].state.Waiting? ==> Bury(t.procs, x)[y].state == t.procs[y].state
  {
    hide Family;
    FamilyBury(t.procs, x);
    FamilyOf(t.procs, x);
  }

  lemma KillInv(k: Machine, x: int)
    requires Inv(k) && Enabled(k, KillPid(x))
    ensures Inv(Step(k, KillPid(x)))
  {
    hide Dispatch, Family, IdleRests, Distinct, SemInv, Bury, Queued;
    QueuedFacts(k);
    if x in k.t.procs {
      BuryKeeps(k.t, x);
      NotQueued(k, x);
      var t := k.t.(procs := Bury(k.t.procs, x));
      if x == k.t.current { SwitchInv(k, t); } else { SwitchKeeps(k, t); }
    }
  }

  lemma NotQueued(k: Machine, x: int)
    requires !Queued(k, x)
    ensures forall s, y :: s in k.sems && y in k.sems[s].queue ==> y != x
  {
  }

  lemma SpawnInv(k: Machine, foreground: bool)
    requires Inv(k) && Enabled(k, SpawnChild(foreground))
    ensures Inv(Step(k, SpawnChild(foreground)))
  {
    hide Family, Distinct;
    QueuedFacts(k);
    FamilySpawn(k.t, foreground);
    SpawnTable(k.t, foreground);
    var k' := Step(k, SpawnChild(foreground));
    forall x | x in k'.t.procs && k'.pcs[x].WaitResume? ensures Accounted(k', x, k'.pcs[x].sem) {
      assert Accounted(k, x, k.pcs[x].sem);
    }
    forall s | s in k'.sems ensures SemOk(k', s) {
      assert SemOk(k, s);
      forall x | x in k.sems[s].queue ensures Waits(k', x, s) { assert Waits(k, x, s); }
    }
  }

  lemma SpawnTable(t: Table, foreground: bool)
    requires WellFormed(t) && IdleRests(t) && (t.current != 0 ==> t.procs[t.current].state.Ready?)
    requires t.current == 0 || t.current != IDLE
    ensures
      var r := Spawn(t, foreground);
      && WellFormed(r) && IdleRests(r) && t.nextPid !in t.procs && r.current == t.current
      && (t.current != 0 ==> r.procs[r.current].state.Ready?)
      && r.procs.Keys == t.procs.Keys + {t.nextPid}
      && forall x :: x in t.procs ==> r.procs[x].state == t.procs[x].state
  {
    var r := Spawn(t, foreground);
    assert t.nextPid !in t.order;
    assert r.procs.Keys == t.procs.Keys + {t.nextPid};
  }

  lemma SemOpenInv(k: Machine, s: int, v: nat)
    requires Inv(k) && Enabled(k, SemOpen(s, v))
    ensures Inv(Step(k, SemOpen(s, v)))
  {
    hide Family, IdleRests, WellFormed;
    var k' := Step(k, SemOpen(s, v));
    forall x | x in k'.t.procs && k'.pcs[x].WaitResume? ensures Accounted(k', x, k'.pcs[x].sem) {
      assert Accounted(k, x, k.pcs[x].sem);
    }
    forall r | r in k'.sems ensures SemOk(k', r) {
      if r != s {
        assert SemOk(k, r);
        forall x | x in k.sems[r].queue ensures Waits(k', x, r) { assert Waits(k, x, r); }
      }
    }
  }

  /** A semWait that finds the semaphore positive. */
  lemma TakeInv(k: Machine, s: int)
    requires Inv(k) && Enabled(k, SemWait(s)) && k.sems[s].value > 0
    ensures Inv(Step(k, SemWait(s)))
  {
    hide Family, IdleRests, WellFormed, Distinct;
    QueuedFacts(k);
    assert SemOk(k, s);
    CounterDown(k.sems[s]);
    CountersOnly(k, s, k.sems[s].(value := k.sems[s].value - 1, taken := k.sems[s].taken + 1));
  }

  /** Changing value and counters of one semaphore, leaving its queue. */
  lemma CountersOnly(k: Machine, s: int, m: Sem)
    requires SemInv(k) && NoFlight(k) && s in k.sems
    requires m.queue == k.sems[s].queue && m.arrived == k.sems[s].arrived && m.served == k.sems[s].served
    requires m.value < UINT && Balanced(m)
    requires m.value > 0 ==> m.queue == []
    ensures SemInv(k.(sems := k.sems[s := m]))
  {
    hide Distinct;
    var k' := k.(sems := k.sems[s := m]);
    forall x | x in k'.t.procs && k'.pcs[x].WaitResume? ensures Accounted(k', x, k'.pcs[x].sem) {
      assert Accounted(k, x, k.pcs[x].sem);
    }
    forall r | r in k'.sems ensures SemOk(k', r) {
      assert SemOk(k, r);
      forall x | x in k.sems[r].queue ensures Waits(k', x, r) { assert Waits(k, x, r); }
    }
  }

  lemma CounterDown(m: Sem)
    requires 0 < m.value < UINT && Balanced(m)
    ensures Balanced(m.(value := m.value - 1, taken := m.taken + 1))
    ensures (m.value - 1) % UINT == m.value - 1
  {
  }

  lemma CounterUp(m: Sem)
    requires m.value < UINT && Balanced(m)
    ensures (m.value + 1) % UINT < UINT && Balanced(m.(value := (m.value + 1) % UINT, posted := m.posted + 1))
    ensures m.value == 0 ==> (m.value + 1) % UINT == 1
  {
  }

  /** A semWait that queues the caller and switches. */
  lemma QueueUpInv(k: Machine, s: int)
    requires Inv(k) && Enabled(k, SemWait(s)) && k.sems[s].value == 0
    ensures Inv(Step(k, SemWait(s)))
  {
    hide Dispatch, Chosen, Family, IdleRests, Distinct, SemInv, WellFormed;
    QueuedFacts(k);
    var p := k.t.current;
    var t1 := k.t.(procs := k.t.procs[p := k.t.procs[p].(state := Blocked).(executions := 0)]);
    RecordKeeps(k.t, p, t1.procs[p]);
    SwitchInv(k, t1);
    DispatchCalm(t1, p);
    var j := k.(t := Dispatch(t1));
    NotWaiting(k, s, p);
    JoinQueue(j, s, p);
    assert Step(k, SemWait(s)).t == Dispatch(t1);
  }

  lemma NotWaiting(k: Machine, s: int, p: int)
    requires Inv(k) && p == k.t.current != 0 && s in k.sems && NoFlight(k)
    ensures p !in k.sems[s].queue && p in k.pcs && !k.pcs[p].WaitResume?
  {
    QueuedFacts(k);
  }

  /** A blocked process joins the queue of a semaphore at zero. */
  lemma JoinQueue(j: Machine, s: int, p: int)
    requires SemInv(j) && s in j.sems && j.sems[s].value == 0
    requires p in j.t.procs && j.t.procs[p].state.Blocked? && p != j.t.current && p != IDLE
    requires p !in j.sems[s].queue && !j.pcs[p].WaitResume?
    ensures
      var m := j.sems[s];
      SemInv(j.(sems := j.sems[s := m.(queue := m.queue + [p], arrived := m.arrived + [p])], pcs := j.pcs[p := WaitResume(s)]))
  {
    hide Distinct;
    var m := j.sems[s];
    var k := j.(sems := j.sems[s := m.(queue := m.queue + [p], arrived := m.arrived + [p])], pcs := j.pcs[p := WaitResume(s)]);
    forall x | x in k.t.procs && k.pcs[x].WaitResume? ensures Accounted(k, x, k.pcs[x].sem) {
      if x != p { assert Accounted(j, x, j.pcs[x].sem); }
    }
    forall r | r in k.sems ensures SemOk(k, r) {
      assert SemOk(j, r);
      forall x | x in k.sems[r].queue ensures Waits(k, x, r) {
        assert x != p ==> Waits(j, x, r);
        assert r != s ==> Waits(j, x, r);
      }
      if r == s { AppendDistinct(m.queue, p); assert m.arrived + [p] == m.served + (m.queue + [p]); }
    }
  }

  lemma AppendDistinct(q: seq<int>, p: int)
    requires Distinct(q) && p !in q
    ensures Distinct(q + [p])
  {
  }

  /** A semPost with nobody waiting. */
  lemma PlainPostInv(k: Machine, s: int)
    requires Inv(k) && Enabled(k, SemPost(s)) && k.sems[s].queue == []
    ensures Inv(Step(k, SemPost(s)))
  {
    hide Family, IdleRests, WellFormed, Distinct;
    QueuedFacts(k);
    assert SemOk(k, s);
    var m := k.sems[s];
    CounterUp(m);
    CountersOnly(k, s, m.(value := (m.value + 1) % UINT, posted := m.posted + 1));
  }

  /** The table part of a hand-off. */
  lemma PromoteInv(t: Table, w: int)
    requires TableInv(t) && w in t.procs && t.procs[w].state.Blocked? && w != IDLE
    requires t.current != 0 && t.current != IDLE && w != t.current
    ensures TableInv(UnblockFirst(t, w)) && UnblockFirst(t, w).current == w
    ensures forall x :: x in t.procs && x != w && x != t.current && x != IDLE && t.procs[x].state.Blocked? ==> StillBlocked(UnblockFirst(t, w), x)
    ensures forall x :: x in UnblockFirst(t, w).procs ==> x in t.procs
  {
    hide Dispatch, Chosen, Family, MoveAfter, Distinct;
    Handoff(t, w);
    var c := t.procs[t.current];
    FamilyOf(t.procs, t.current);
    FamilyRecord(t.procs, t.current, c.(executions := Quantum(c)));
    var m := t.procs[t.current := c.(executions := Quantum(c))];
    FamilyRecord(m, w, m[w].(state := Ready));
    var r := Promote(t, w);
    DispatchKeeps(r);
    IdleDispatch(r);
    FamilyDispatch(r);
    DispatchEffect(r);
    forall x | x in t.procs && x != w && x != t.current && x != IDLE && t.procs[x].state.Blocked?
      ensures StillBlocked(UnblockFirst(t, w), x)
    {
      DispatchCalm(r, x);
    }
  }

  /** A semPost with waiters: the first of them is handed the semaphore and runs next. */
  lemma HandoffPostInv(k: Machine, s: int)
    requires Inv(k) && Enabled(k, SemPost(s)) && k.sems[s].queue != []
    ensures Inv(Step(k, SemPost(s)))
    ensures InFlight(Step(k, SemPost(s)), s) && Step(k, SemPost(s)).t.current == k.sems[s].queue[0]
  {
    hide Dispatch, Chosen, Family, IdleRests, Distinct, SemInv, WellFormed, UnblockFirst;
    QueuedFacts(k);
    var m := k.sems[s];
    var w := m.queue[0];
    assert w in m.queue;
    PromoteInv(k.t, w);
    var t := UnblockFirst(k.t, w);
    forall r, x | r in k.sems && x in k.sems[r].queue && x != t.current ensures StillBlocked(t, x) {
      assert x in k.t.procs && x != w && x != k.t.current && x != IDLE && k.t.procs[x].state.Blocked?;
    }
    LeaveQueue(k, s, UnblockFirst(k.t, w));
  }

  lemma LeaveQueue(k: Machine, s: int, t: Table)
    requires SemInv(k) && NoFlight(k) && s in k.sems && k.sems[s].queue != [] && 0 !in k.t.procs && k.t.current in k.t.procs
    requires t.current == k.sems[s].queue[0] && t.current != 0
    requires forall r, x :: r in k.sems && x in k.sems[r].queue && x != t.current ==> StillBlocked(t, x)
    requires forall x :: x in t.procs ==> x in k.t.procs
    requires k.t.current != IDLE
    ensures
      var m := k.sems[s];
      var m' := m.(value := (m.value + 1) % UINT, posted := m.posted + 1).(queue := m.queue[1..], served := m.served + [m.queue[0]]);
      var k' := Machine(t, k.sems[s := m'], k.pcs[k.t.current := PostResume], k.semLock);
      SemInv(k') && InFlight(k', s)
  {
    hide Distinct;
    var m, w, p := k.sems[s], k.sems[s].queue[0], k.t.current;
    var m' := m.(value := (m.value + 1) % UINT, posted := m.posted + 1).(queue := m.queue[1..], served := m.served + [w]);
    var k' := Machine(t, k.sems[s := m'], k.pcs[p := PostResume], k.semLock);
    assert SemOk(k, s) && w in m.queue && Waits(k, w, s);
    CounterUp(m);
    HeadGone(m.queue);
    forall x | x in k'.t.procs && k'.pcs[x].WaitResume? ensures Accounted(k', x, k'.pcs[x].sem) {
      assert Accounted(k, x, k.pcs[x].sem);
      assert x in m.queue && x != w ==> x in m.queue[1..];
    }
    forall r | r in k'.sems ensures SemOk(k', r) {
      assert SemOk(k, r);
      forall x | x in k'.sems[r].queue ensures Waits(k', x, r) {
        assert x in k.sems[r].queue && Waits(k, x, r);
        assert StillBlocked(t, x);
      }
      if r == s { assert m.served + m.queue == (m.served + [w]) + m.queue[1..]; }
    }
  }

  lemma HeadGone(q: seq<int>)
    requires Distinct(q) && q != []
    ensures Distinct(q[1..]) && q[0] !in q[1..]
    ensures forall x :: x in q <==> x == q[0] || x in q[1..]
  {
    assert q == [q[0]] + q[1..];
  }

  /** The handed-over waiter takes the semaphore: the value was exactly one. */
  lemma ResumeInv(k: Machine)
    requires Inv(k) && Enabled(k, Resume)
    ensures Inv(Step(k, Resume)) && NoFlight(Step(k, Resume))
    ensures k.pcs[k.t.current].WaitResume? ==>
      k.sems[k.pcs[k.t.current].sem].value == 1 && Step(k, Resume).sems[k.pcs[k.t.current].sem].value == 0
  {
    hide Family, IdleRests, WellFormed, Distinct;
    QueuedFacts(k);
    var p := k.t.current;
    var k' := Step(k, Resume);
    if k.pcs[p].WaitResume? {
      assert Accounted(k, p, k.pcs[p].sem);
      assert SemOk(k, k.pcs[p].sem);
      CounterDown(k.sems[k.pcs[p].sem]);
    }
    forall x | x in k'.t.procs && k'.pcs[x].WaitResume? ensures Accounted(k', x, k'.pcs[x].sem) {
      assert Accounted(k, x, k.pcs[x].sem);
    }
    forall r | r in k'.sems ensures SemOk(k', r) {
      assert SemOk(k, r);
      forall x | x in k'.sems[r].queue ensures Waits(k', x, r) { assert Waits(k, x, r); }
    }
  }

  /** Every step keeps everything. */
  lemma StepInv(k: Machine, e: Event)
    requires Inv(k) && Enabled(k, e)
    ensures Inv(Step(k, e))
  {
    hide Inv, Enabled, Step;
    match e {
      case Tick => TickInv(k);
      case Keyboard => KeyboardInv(k);
      case Resume => ResumeInv(k);
      case SemOpen(s, v) => SemOpenInv(k, s, v);
      case SemWait(s) => EnabledSem(k, s); if k.sems[s].value > 0 { TakeInv(k, s); } else { QueueUpInv(k, s); }
      case SemPost(s) => EnabledSem(k, s); if k.sems[s].queue == [] { PlainPostInv(k, s); } else { HandoffPostInv(k, s); }
      case BlockPid(x) => BlockInv(k, x);
      case UnblockPid(x) => UnblockInv(k, x);
      case KillPid(x) => KillInv(k, x);
      case NicePid(x, o) => NiceInv(k, x, o);
      case WaitChildren => OwnSwitchInv(k, e);
      case Quit => OwnSwitchInv(k, e);
      case ReadBlocks => OwnSwitchInv(k, e);
      case SpawnChild(f) => SpawnInv(k, f);
    }
  }

  lemma EnabledSem(k: Machine, s: int)
    requires Enabled(k, SemWait(s)) || Enabled(k, SemPost(s))
    ensures s in k.sems
  {
  }

  lemma InitInv()
    ensures Inv(Init())
  {
    var k := Init();
    assert Kids(k.t.procs, IDLE) == {};
    assert FamilyAt(k.t.procs, IDLE);
  }

  // ---- runs --------------------------------------------------------------------------------

  /** k' follows k by the enabled event e.  Step is only defined on consistent states, and
      ReachableInv shows that a run meets no others. */
  ghost predicate Follows(k: Machine, e: Event, k': Machine) {
    Enabled(k, e) && (Inv(k) ==> k' == Step(k, e))
  }

  ghost predicate Run(ks: seq<Machine>, es: seq<Event>) {
    && |ks| == |es| + 1 && ks[0] == Init()
    && forall i :: 0 <= i < |es| ==> Follows(ks[i], es[i], ks[i + 1])
  }

  /** Everything holds in every reachable state, for any number of processes and semaphores. */
  lemma {:induction false} ReachableInv(ks: seq<Machine>, es: seq<Event>, i: nat)
    requires Run(ks, es) && i < |ks|
    ensures Inv(ks[i])
    decreases i
  {
    hide Inv, Step, Enabled;
    if i == 0 {
      InitInv();
    } else {
      ReachableInv(ks, es, i - 1);
      assert Follows(ks[i - 1], es[i - 1], ks[i]);
      StepInv(ks[i - 1], es[i - 1]);
    }
  }

  /** The hand-off: after a post that pops a waiter, the very next step of the machine is that
      waiter taking the semaphore; nothing else can happen in between. */
  lemma HandoffIsNext(ks: seq<Machine>, es: seq<Event>, i: nat, s: int)
    requires Run(ks, es) && i + 1 < |es| && es[i] == SemPost(s)
    requires s in ks[i].sems && ks[i].sems[s].queue != []
    ensures ks[i + 1].t.current == ks[i].sems[s].queue[0] && InFlight(ks[i + 1], s)
    ensures s in ks[i + 1].sems && ks[i + 1].sems[s].value == 1
    ensures es[i + 1] == Resume && s in ks[i + 2].sems && ks[i + 2].sems[s].value == 0
  {
    hide Step, SemInv, WellFormed, IdleRests, Family;
    ReachableInv(ks, es, i);
    ReachableInv(ks, es, i + 1);
    assert Follows(ks[i], es[i], ks[i + 1]) && Follows(ks[i + 1], es[i + 1], ks[i + 2]);
    HandoffPostInv(ks[i], s);
    ResumeInv(ks[i + 1]);
    StepIsCounterStep(ks[i], es[i], s);
    StepIsCounterStep(ks[i + 1], es[i + 1], s);
  }

  /** In every reachable state with no hand-off in flight, a positive semaphore has no waiter; and
      the waiters still queued are exactly the last to arrive, in order (FIFO). */
  lemma PositiveMeansNobodyWaits(ks: seq<Machine>, es: seq<Event>, i: nat, s: int)
    requires Run(ks, es) && i < |ks| && s in ks[i].sems
    ensures !InFlight(ks[i], s) && ks[i].sems[s].value > 0 ==> ks[i].sems[s].queue == []
    ensures ks[i].sems[s].arrived == ks[i].sems[s].served + ks[i].sems[s].queue
    ensures !ks[i].semLock
  {
    ReachableInv(ks, es, i);
    assert SemOk(ks[i], s);
  }

  /** No waiting parent is stranded: it has a live child, and `children` counts exactly those. */
  lemma NoStrandedParent(ks: seq<Machine>, es: seq<Event>, i: nat, x: int)
    requires Run(ks, es) && i < |ks| && x in ks[i].t.procs
    ensures ks[i].t.procs[x].children == |Kids(ks[i].t.procs, x)|
    ensures ks[i].t.procs[x].state.Waiting? ==> Kids(ks[i].t.procs, x) != {}
  {
    ReachableInv(ks, es, i);
    assert FamilyAt(ks[i].t.procs, x);
  }

  /** The table when the running process reaches forceTimer in event e. */
  ghost function AtSwitch(k: Machine, e: Event): Table
    requires Inv(k)
  {
    var c := k.t.current;
    if c !in k.t.procs then k.t
    else
      var p := k.t.procs[c];
      match e
      case BlockPid(_) => k.t.(procs := k.t.procs[c := p.(state := Blocked).(executions := 0)])
      case SemWait(_) => k.t.(procs := k.t.procs[c := p.(state := Blocked).(executions := 0)])
      case KillPid(_) => k.t.(procs := Bury(k.t.procs, c))
      case WaitChildren => k.t.(procs := k.t.procs[c := p.(state := Waiting)])
      case Quit => k.t.(procs := k.t.procs[c := p.(executions := Quantum(p))])
      case ReadBlocks => k.t.(procs := k.t.procs[c := p.(state := BlockedIO, executions := 0)])
      case _ => k.t
  }

  /** Idle starts running only through nextProcess, on a table where it was resting. */
  lemma IdleByDispatch(k: Machine, e: Event)
    requires Inv(k) && Enabled(k, e) && k.t.current != 0 && Step(k, e).t.current == IDLE && !e.Keyboard?
    ensures WellFormed(AtSwitch(k, e)) && IdleRests(AtSwitch(k, e)) && AtSwitch(k, e).current == k.t.current
    ensures Step(k, e).t == Dispatch(AtSwitch(k, e))
  {
    hide Dispatch, Family, Distinct, Spawn, UnblockFirst, Bury;
    QueuedFacts(k);
    if e.SemPost? && k.sems[e.s].queue != [] {
      HandoffPostInv(k, e.s);
    }
    if e.KillPid? && e.pid == k.t.current { BuryKeeps(k.t, e.pid); }
    if e.SpawnChild? { SpawnTable(k.t, e.foreground); }
    if e.Resume? { ResumeInv(k); }
  }

  /** Over every run: whenever a step makes idle the running process, no other process can run. */
  lemma IdleRunsOnlyWhenNobodyCan(ks: seq<Machine>, es: seq<Event>, i: nat, x: int)
    requires Run(ks, es) && i < |es| && ks[i].t.current != 0 && !es[i].Keyboard?
    requires ks[i + 1].t.current == IDLE && x in ks[i + 1].t.procs && x != IDLE
    ensures !ks[i + 1].t.procs[x].state.Ready?
  {
    hide Inv, Enabled, Step, WellFormed, IdleRests, AtSwitch, Dispatch;
    ReachableInv(ks, es, i);
    assert Follows(ks[i], es[i], ks[i + 1]);
    IdleByDispatch(ks[i], es[i]);
    IdleOnlyWhenNobody(AtSwitch(ks[i], es[i]));
  }

  // ---- the kernel semaphore is a counting semaphore -----------------------------------------

  /** What an abstract counting semaphore can do: nothing, V, or P on a positive value. */
  ghost predicate CounterStep(m: Sem, m': Sem) {
    || (m'.value == m.value && m'.posted == m.posted && m'.taken == m.taken)
    || (m'.value == (m.value + 1) % UINT && m'.posted == m.posted + 1 && m'.taken == m.taken)
    || (m.value > 0 && m'.value == m.value - 1 && m'.posted == m.posted && m'.taken == m.taken + 1)
  }

  /** Every kernel step is, for every semaphore, a step of the abstract one: a wait completes only by
      taking a positive value, so the unsigned value never underflows. */
  lemma StepIsCounterStep(k: Machine, e: Event, s: int)
    requires Inv(k) && Enabled(k, e) && s in k.sems
    ensures s in Step(k, e).sems && CounterStep(k.sems[s], Step(k, e).sems[s])
  {
    hide Family, IdleRests, Dispatch, UnblockFirst, Block, Kill, Distinct, Spawn;
    if e.Resume? {
      ResumeInv(k);
      QueuedFacts(k);
    }
  }

  /** The law of a semaphore, in every reachable state: the waits completed never exceed the initial value
      plus the posts, so of a semaphore opened at 1 at most one take is not matched by a post; and the
      value is exactly the difference unless that no longer fits the unsigned word. */
  lemma TakenAtMostPosted(ks: seq<Machine>, es: seq<Event>, i: nat, s: int)
    requires Run(ks, es) && i < |ks| && s in ks[i].sems
    ensures
      var m := ks[i].sems[s];
      && m.taken <= m.initial + m.posted
      && (m.initial + m.posted - m.taken < UINT ==> m.value == m.initial + m.posted - m.taken)
  {
    hide WellFormed, IdleRests, Family;
    ReachableInv(ks, es, i);
    assert SemOk(ks[i], s);
  }
}
