/** What every scheduler operation keeps: the process tree's counts, the idle protocol and the
    hand-off order. */
module SchedInvariants {
  import opened Rotation
  import opened Sched
  import opened SchedWalk

  // ---- nextProcess, record by record -------------------------------------------------

  /** executions of x when the walk starts: an expired quantum is reset. */
  function StartExecutions(s: Table, x: int): int
    requires x in s.procs
  {
    if Expired(s) && x == s.current then 0 else s.procs[x].executions
  }

  /** One record after nextProcess chose c. */
  ghost predicate RecordAfter(s: Table, c: int, x: int, p: Proc)
    requires x in s.procs && IDLE in s.procs
  {
    && p.ppid == s.procs[x].ppid && p.priority == s.procs[x].priority && p.children == s.procs[x].children
    && p.executions == (if x == c then Inc(StartExecutions(s, x)) else StartExecutions(s, x))
    && p.state == if x != IDLE then s.procs[x].state
                  else if c == IDLE then Ready
                  else if s.idleFlag != 0 then Blocked
                  else s.procs[x].state
  }

  lemma DispatchEffect(s: Table)
    requires WellFormed(s)
    ensures
      var r, c := Dispatch(s), Chosen(s);
      && r.current == c && r.nextPid == s.nextPid && c in r.procs && c in s.procs
      && (forall x :: x in r.procs ==> x in s.procs && RecordAfter(s, c, x, r.procs[x]))
      && (forall x :: x in s.procs && x !in r.procs ==> s.procs[x].state.Dead?)
      && (c == IDLE || s.procs[c].state.Ready?)
      && r.idleFlag == (if c != IDLE then 0 else if s.procs[IDLE].state.Ready? then s.idleFlag else 1)
  {
    hide Without, Rot, StartAt, Ring, Distinct, Finish, RecordAfter, StartProcs;
    var q, m := Ring(s), StartProcs(s);
    var k := FirstReady(q, m);
    StartKeys(s);
    DispatchKeeps(s);
    RingKeys(s);
    StartRecords(s);
    var dead := if k < |q| then DeadIn(q[..k], m) else DeadIn(q, m);
    DeadExcludes(if k < |q| then q[..k] else q, m, IDLE);
    DeadExcludes(if k < |q| then q[..k] else q, m, Chosen(s));
    assert forall x :: x in dead ==> s.procs[x].state.Dead?;
    if k < |q| {
      FinishRecords(s, m, q[k], dead, s.idleFlag);
    } else {
      NobodyReady(q, m);
      FinishRecords(s, WakeIdle(m), IDLE, dead, 1);
    }
  }

  /** The records lines 93-98 leave, when the chosen process is READY and idle's record says so if chosen. */
  lemma FinishRecords(s: Table, m: map<int, Proc>, c: int, dead: set<int>, flag: int)
    requires m.Keys == s.procs.Keys && c in m && c !in dead && IDLE in m && IDLE !in dead
    requires forall x :: x in m ==> m[x] == s.procs[x].(executions := StartExecutions(s, x), state := m[x].state)
    requires forall x :: x in m && x != IDLE ==> m[x].state == s.procs[x].state
    requires if c == IDLE then m[IDLE].state.Ready? else m[IDLE].state == s.procs[IDLE].state && flag == s.idleFlag
    ensures
      var r := Finish(s, m, c, dead, flag);
      && r.current == c && r.nextPid == s.nextPid && r.procs.Keys == s.procs.Keys - dead
      && (forall x :: x in r.procs ==> RecordAfter(s, c, x, r.procs[x]))
      && r.idleFlag == if c != IDLE then 0 else flag
  {
    hide Without;
    var r := Finish(s, m, c, dead, flag);
    assert forall x :: x in m - dead <==> x in m && x !in dead;
  }

  lemma RingKeys(s: Table)
    requires WellFormed(s)
    ensures forall x :: x in Ring(s) <==> x in StartProcs(s)
  {
    StartFacts(s);
    forall x ensures x in Ring(s) <==> x in s.order { RotMember(s.order, StartAt(s), x); }
  }

  lemma StartRecords(s: Table)
    requires WellFormed(s)
    ensures StartProcs(s).Keys == s.procs.Keys
    ensures forall x :: x in s.procs ==> StartProcs(s)[x] == s.procs[x].(executions := StartExecutions(s, x))
  {
  }

  /** Idle is picked although somebody else is READY only if idle stands before them: never when
      idle itself just used its quantum or was asleep. */
  lemma IdleMeansNobody(s: Table)
    requires WellFormed(s) && Chosen(s) == IDLE
    requires (s.current == IDLE && Expired(s)) || !s.procs[IDLE].state.Ready?
    ensures forall x :: x in s.procs && x != IDLE ==> !s.procs[x].state.Ready?
    ensures forall x :: x in Dispatch(s).procs && x != IDLE ==> !Dispatch(s).procs[x].state.Ready?
  {
    hide Dispatch, Next, Rot, Ring, StartAt, StartProcs, Expired;
    var q, m := Ring(s), StartProcs(s);
    var k := FirstReady(q, m);
    RingKeys(s);
    StartRecords(s);
    DispatchEffect(s);
    if k == |q| {
      NobodyReady(q, m);
    } else {
      IdleIsLast(s);
      assert q[k] == q[|q| - 1];
      forall x | x in s.procs && x != IDLE ensures !s.procs[x].state.Ready? {
        assert x in q;
        var i :| 0 <= i < |q| && q[i] == x;
        assert i < k;
      }
    }
  }

  lemma IdleIsLast(s: Table)
    requires WellFormed(s) && s.current == IDLE && Expired(s)
    ensures |Ring(s)| > 0 && Ring(s)[|Ring(s)| - 1] == IDLE && Distinct(Ring(s))
  {
    hide Rot, Next;
    RotAdvance(s.order, IDLE);
    RotDistinct(s.order, StartAt(s));
  }

  // ---- the idle protocol ------------------------------------------------------------------

  /** Idle has a quantum of one and runs or sleeps opposite to everybody else: it is READY only
      while it is the running process (or nothing has run yet). */
  ghost predicate IdleRests(s: Table) {
    IDLE in s.procs &&
    var i := s.procs[IDLE];
    && i.priority == 39
    && (s.current == 0 ==> i.state.Ready? && i.executions == 0 && s.idleFlag != 0)
    && (s.current == IDLE ==> i.state.Ready? && i.executions == 1 && s.idleFlag != 0)
    && (s.current != 0 && s.current != IDLE ==> i.state.Blocked? && i.executions == 0 && s.idleFlag == 0)
  }

  lemma IdleDispatch(s: Table)
    requires WellFormed(s) && IdleRests(s)
    ensures IdleRests(Dispatch(s))
  {
    hide Dispatch, Chosen;
    DispatchEffect(s);
  }

  /** Once anything has run, idle is chosen only when nobody else can run. */
  lemma IdleOnlyWhenNobody(s: Table)
    requires WellFormed(s) && IdleRests(s) && s.current != 0 && Dispatch(s).current == IDLE
    ensures forall x :: x in Dispatch(s).procs && x != IDLE ==> !Dispatch(s).procs[x].state.Ready?
  {
    DispatchKeeps(s);
    IdleMeansNobody(s);
  }

  // ---- the process tree ---------------------------------------------------------------------

  /** The live children of x. */
  ghost function Kids(m: map<int, Proc>, x: int): set<int> {
    set y | y in m && !m[y].state.Dead? && m[y].ppid == x
  }

  /** Every `children` field counts the live children, parents are older than their children, and a
      waiting process has a live child to wake it. */
  ghost predicate Family(m: map<int, Proc>) {
    forall x :: x in m ==> FamilyAt(m, x)
  }

  ghost predicate FamilyAt(m: map<int, Proc>, x: int)
    requires x in m
  {
    && m[x].children == |Kids(m, x)|
    && 0 <= m[x].ppid < x
    && (m[x].state.Waiting? ==> m[x].children > 0)
  }

  lemma FamilyDispatch(s: Table)
    requires WellFormed(s) && Family(s.procs)
    ensures Family(Dispatch(s).procs)
  {
    hide Dispatch, Chosen, Inc, StartExecutions;
    DispatchEffect(s);
    var r := Dispatch(s);
    forall x | x in r.procs ensures FamilyAt(r.procs, x) {
      assert FamilyAt(s.procs, x);
      SameKids(s, x);
    }
  }

  lemma SameKids(s: Table, x: int)
    requires WellFormed(s)
    ensures Kids(Dispatch(s).procs, x) == Kids(s.procs, x)
  {
    hide Dispatch, Chosen, Inc, StartExecutions;
    DispatchEffect(s);
    var r := Dispatch(s);
    forall y ensures y in Kids(r.procs, x) <==> y in Kids(s.procs, x) {
      if y in r.procs { assert RecordAfter(s, Chosen(s), y, r.procs[y]); }
    }
  }

  /** A record change that neither kills nor re-parents keeps the tree. */
  lemma FamilyRecord(m: map<int, Proc>, x: int, p: Proc)
    requires Family(m) && x in m && p.ppid == m[x].ppid && p.children == m[x].children
    requires p.state.Dead? <==> m[x].state.Dead?
    requires p.state.Waiting? ==> p.children != 0
    ensures Family(m[x := p])
  {
    var n := m[x := p];
    forall y ensures Kids(n, y) == Kids(m, y) {}
    forall y | y in n ensures FamilyAt(n, y) { assert FamilyAt(m, y); }
  }

  lemma FamilyUnblockIO(s: Table)
    requires Family(s.procs)
    ensures Family(UnblockIO(s).procs)
  {
    var n := UnblockIO(s).procs;
    forall y ensures Kids(n, y) == Kids(s.procs, y) {
      forall z ensures z in Kids(n, y) <==> z in Kids(s.procs, y) {}
    }
    forall y | y in n ensures FamilyAt(n, y) { assert FamilyAt(s.procs, y); }
  }

  /** Killing a live process takes it from its parent's count and wakes the parent if it was the last. */
  lemma FamilyBury(m: map<int, Proc>, pid: int)
    requires Family(m) && pid in m && !m[pid].state.Dead?
    ensures Family(Bury(m, pid))
  {
    var n, parent := Bury(m, pid), m[pid].ppid;
    assert FamilyAt(m, pid);
    forall y ensures Kids(n, y) == if y == parent then Kids(m, y) - {pid} else Kids(m, y) {}
    forall y | y in n ensures FamilyAt(n, y) {
      assert FamilyAt(m, y);
      if y == parent { assert pid in Kids(m, y); }
    }
  }

  lemma FamilySpawn(s: Table, foreground: bool)
    requires WellFormed(s) && Family(s.procs)
    ensures Family(Spawn(s, foreground).procs)
  {
    hide Kids;
    var m, n, pid := s.procs, Spawn(s, foreground).procs, s.nextPid;
    forall y | y in m ensures m[y].ppid < pid { assert FamilyAt(m, y); }
    forall y | y in n ensures FamilyAt(n, y) {
      SpawnKids(s, foreground, y);
      if y != pid { assert FamilyAt(m, y); }
    }
  }

  lemma SpawnKids(s: Table, foreground: bool, y: int)
    requires WellFormed(s) && forall x :: x in s.procs ==> s.procs[x].ppid < s.nextPid
    ensures |Kids(Spawn(s, foreground).procs, y)| == |Kids(s.procs, y)| + (if y == s.current then 1 else 0)
    ensures y == s.nextPid ==> |Kids(s.procs, y)| == 0
  {
    hide Spawn, WellFormed;
    SpawnRecords(s, foreground);
    OneMoreKid(s.procs, Spawn(s, foreground).procs, s.nextPid, y);
    if y == s.nextPid {
      forall z ensures z !in Kids(s.procs, y) {}
      assert Kids(s.procs, y) == {};
    }
  }

  /** A new live record is a child of the parent it names and of nobody else. */
  lemma OneMoreKid(m: map<int, Proc>, n: map<int, Proc>, x: int, y: int)
    requires x !in m && n.Keys == m.Keys + {x} && !n[x].state.Dead?
    requires forall z :: z in m ==> n[z].ppid == m[z].ppid && (n[z].state.Dead? <==> m[z].state.Dead?)
    ensures |Kids(n, y)| == |Kids(m, y)| + (if y == n[x].ppid then 1 else 0)
  {
    forall z ensures z in Kids(n, y) <==> z in Kids(m, y) || (y == n[x].ppid && z == x) {
      assert z in n <==> z in m || z == x;
    }
    if y == n[x].ppid {
      assert Kids(n, y) == Kids(m, y) + {x};
    } else {
      assert Kids(n, y) == Kids(m, y);
    }
  }

  lemma SpawnRecords(s: Table, foreground: bool)
    requires WellFormed(s)
    ensures
      var n := Spawn(s, foreground).procs;
      && s.nextPid !in s.procs && n.Keys == s.procs.Keys + {s.nextPid}
      && n[s.nextPid].ppid == s.current && n[s.nextPid].state.Ready?
      && forall x :: x in s.procs ==> n[x].ppid == s.procs[x].ppid && (n[x].state.Dead? <==> s.procs[x].state.Dead?)
  {
  }

  // ---- the hand-off ---------------------------------------------------------------------------

  lemma PromoteKeeps(s: Table, w: int)
    requires WellFormed(s) && w in s.procs && s.current in s.procs && w != s.current
    ensures WellFormed(Promote(s, w))
    ensures Next(Promote(s, w).order, s.current) == w
  {
    hide RemoveOne, IndexOf, Next;
    RemoveDistinct(s.order, w);
    var r := RemoveOne(s.order, w);
    var i := IndexOf(r, s.current);
    var o := MoveAfter(s.order, s.current, w);
    assert r == r[..i + 1] + r[i + 1..];
    forall x ensures x in o <==> x in r || x == w {}
    forall j, k | 0 <= j < k < |o| ensures o[j] != o[k] {
      if j != i + 1 && k != i + 1 {
        assert o[j] == r[if j <= i then j else j - 1] && o[k] == r[if k <= i then k else k - 1];
      }
    }
    assert o[i] == s.current;
    AtIndex(o, i);
  }

  /** After unblockFirst(w) by a running READY process, the next process dispatched is w. */
  lemma Handoff(s: Table, w: int)
    requires WellFormed(s) && w in s.procs && !s.procs[w].state.Dead? && w != s.current
    requires s.current in s.procs && s.procs[s.current].state.Ready?
    ensures WellFormed(Promote(s, w)) && UnblockFirst(s, w).current == w && Chosen(Promote(s, w)) == w
  {
    hide Dispatch, MoveAfter, Next, Rot;
    PromoteKeeps(s, w);
    var t := Promote(s, w);
    assert Expired(t) && t.current in t.order;
    assert StartAt(t) == w;
    assert w in t.order;
    RotHead(t.order, w);
    DispatchKeeps(t);
    assert FirstReady(Ring(t), StartProcs(t)) == 0;
  }
}
