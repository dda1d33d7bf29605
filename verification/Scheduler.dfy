/** The scheduler on its linked process list (Kernel/utils/scheduler.c), refining module Sched.
    A process record is identified by its pid; `nexts` holds the next pointers, `procs` the other
    fields, and 0 is NULL. */
module Scheduler {
  import opened Rotation
  import opened Sched
  import opened SchedWalk

  /** first, last and the next pointers spell out `order`. */
  ghost predicate Linked(nexts: map<int, int>, first: int, last: int, order: seq<int>) {
    && first == HeadOrNull(order)
    && last == (if order == [] then 0 else order[|order| - 1])
    && forall x :: x in order ==> x in nexts && nexts[x] == Next(order, x)
  }

  /** Unlinking x from the list (removeProcess). */
  lemma LinkedRemove(nexts: map<int, int>, first: int, last: int, order: seq<int>, x: int,
                     nexts': map<int, int>, first': int, last': int)
    requires Linked(nexts, first, last, order) && Distinct(order) && 0 !in order && x in order
    requires
      var i := IndexOf(order, x);
      var prev := if i == 0 then 0 else order[i - 1];
      && nexts' == (if prev == 0 then nexts else nexts[prev := nexts[x]])
      && first' == (if prev == 0 then nexts[x] else first)
      && last' == (if last == x then prev else last)
    ensures Linked(nexts', first', last', RemoveOne(order, x))
  {
    hide IndexOf, Next, RemoveOne, Distinct;
    var i := IndexOf(order, x);
    var r := RemoveOne(order, x);
    AtIndex(order, i);
    RemoveDistinct(order, x);
    LastIs(order, i);
    if i > 0 { FirstIs(order, i); }
    forall y | y in r ensures y in nexts' && nexts'[y] == Next(r, y) {
      RemovedLink(nexts, first, last, order, i, IndexOf(order, y), nexts');
    }
  }

  lemma RemovedLink(nexts: map<int, int>, first: int, last: int, order: seq<int>, i: nat, j: nat, nexts': map<int, int>)
    requires Linked(nexts, first, last, order) && Distinct(order) && i < |order| && j < |order| && i != j
    requires nexts' == if i == 0 then nexts else nexts[order[i - 1] := nexts[order[i]]]
    ensures order[j] in nexts' && nexts'[order[j]] == Next(RemoveOne(order, order[i]), order[j])
  {
    hide IndexOf, Next, RemoveOne, Distinct;
    RemovedNext(order, i, j);
    if i > 0 { SameAt(order, i - 1, j); }
  }

  /** Taking an element off changes only its predecessor's successor. */
  lemma RemovedNext(order: seq<int>, i: nat, j: nat)
    requires Distinct(order) && i < |order| && j < |order| && i != j
    ensures order[j] in RemoveOne(order, order[i])
    ensures Next(RemoveOne(order, order[i]), order[j]) ==
            if j + 1 == i then Next(order, order[i]) else Next(order, order[j])
  {
    hide IndexOf, Next, RemoveOne, Distinct;
    SameAt(order, i, j);
    RemoveDistinct(order, order[i]);
    AtIndex(order, i);
    AtIndex(order, j);
    var r := RemoveOne(order, order[i]);
    AtIndex(r, if j < i then j else j - 1);
  }

  lemma SameAt(order: seq<int>, i: nat, j: nat)
    requires Distinct(order) && i < |order| && j < |order|
    ensures order[i] == order[j] <==> i == j
  {
  }

  lemma LastIs(order: seq<int>, i: nat)
    requires Distinct(order) && i < |order|
    ensures order[|order| - 1] == order[i] <==> i == |order| - 1
  {
  }

  lemma FirstIs(order: seq<int>, i: nat)
    requires Distinct(order) && 0 < i < |order| && 0 !in order
    ensures order[i - 1] != 0 && order[0] != order[i]
  {
  }

  class Scheduler {
    var nexts: map<int, int>
    var procs: map<int, Proc>
    var firstProcess: int
    var lastProcess: int
    var currentProcess: int
    var firstBlockedIteration: int
    var idleFlag: int
    var pids: int
    ghost var order: seq<int>

    ghost function Abs(): Table
      reads this
    {
      Table(order, procs, currentProcess, idleFlag, pids)
    }

    ghost predicate Valid()
      reads this
    {
      && WellFormed(Abs())
      && Linked(nexts, firstProcess, lastProcess, order)
      && firstBlockedIteration == 0
    }

    /** The state initScheduler leaves: idle alone on the list. */
    constructor ()
      ensures Valid() && Abs() == Boot()
    {
      nexts, procs := map[IDLE := 0], map[IDLE := Proc(0, 39, 0, Ready, 0)];
      firstProcess, lastProcess, currentProcess, firstBlockedIteration := IDLE, IDLE, 0, 0;
      idleFlag, pids := 2, IDLE + 1;
      order := [IDLE];
    }

    /** searchProcess: the process and the one before it. */
    method SearchProcess(pid: int) returns (curr: int, previous: int)
      requires Linked(nexts, firstProcess, lastProcess, order) && Distinct(order) && 0 !in order
      ensures curr == if pid in order then pid else 0
      ensures previous == if pid in order && IndexOf(order, pid) > 0 then order[IndexOf(order, pid) - 1] else 0
    {
      hide IndexOf, Next, Distinct;
      curr, previous := firstProcess, 0;
      ghost var i := 0;
      while curr != 0
        invariant 0 <= i <= |order|
        invariant curr == (if i < |order| then order[i] else 0)
        invariant previous == if i > 0 then order[i - 1] else 0
        invariant pid !in order[..i]
        decreases |order| - i
      {
        AtIndex(order, i);
        IndexUnique(order, i);
        if curr == pid {
          return;
        }
        assert order[..i + 1] == order[..i] + [order[i]];
        previous := curr;
        curr := nexts[curr];
        i := i + 1;
      }
      assert order[..i] == order;
      previous := 0;
    }

    /** removeProcess */
    method RemoveProcess(del: int)
      requires Linked(nexts, firstProcess, lastProcess, order) && Distinct(order) && 0 !in order && del in order
      modifies this`nexts, this`firstProcess, this`lastProcess, this`order
      ensures Linked(nexts, firstProcess, lastProcess, order)
      ensures order == RemoveOne(old(order), del)
      ensures del in nexts && nexts[del] == old(nexts)[del]
      ensures del in old(nexts) && old(nexts).Keys <= nexts.Keys
    {
      hide IndexOf, Next, Distinct, RemoveOne;
      ghost var n0, f0, l0 := nexts, firstProcess, lastProcess;
      var found, prev := SearchProcess(del);
      if IndexOf(order, del) > 0 {
        FirstIs(order, IndexOf(order, del));
        SameAt(order, IndexOf(order, del) - 1, IndexOf(order, del));
      }
      if prev == 0 {
        firstProcess := nexts[found];
        if lastProcess == found {
          lastProcess := 0;
        }
      } else {
        nexts := nexts[prev := nexts[found]];
        if lastProcess == found {
          lastProcess := prev;
        }
      }
      LinkedRemove(n0, f0, l0, order, del, nexts, firstProcess, lastProcess);
      order := RemoveOne(order, del);
    }

    /** block without the self-block part (lines 253-259). */
    method SetBlocked(pid: int) returns (ok: bool)
      requires Distinct(order) && 0 !in order && (forall x :: x in order <==> x in procs)
      requires Linked(nexts, firstProcess, lastProcess, order)
      modifies this`procs
      ensures ok <==> pid in old(procs) && !old(procs)[pid].state.Dead?
      ensures procs == if ok then SetProc(old(procs), pid, old(procs)[pid].(state := Blocked)) else old(procs)
    {
      var del, prev := SearchProcess(pid);
      if del == 0 || procs[del].state.Dead? {
        return false;
      }
      procs := procs[del := procs[del].(state := Blocked)];
      return true;
    }

    /** unblock */
    method Unblock(pid: int) returns (ok: bool)
      requires Distinct(order) && 0 !in order && (forall x :: x in order <==> x in procs)
      requires Linked(nexts, firstProcess, lastProcess, order)
      modifies this`procs
      ensures ok <==> pid in old(procs) && !old(procs)[pid].state.Dead?
      ensures Abs() == Sched.Unblock(old(Abs()), pid)
    {
      var del, prev := SearchProcess(pid);
      if del == 0 || procs[del].state.Dead? {
        return false;
      }
      procs := procs[del := procs[del].(state := Ready)];
      return true;
    }

    /** Lines 66-72: a process that used up its quantum gives way to its successor. */
    method Expire()
      requires Valid()
      modifies this`procs, this`currentProcess
      ensures procs == StartProcs(old(Abs())) && currentProcess == StartAt(old(Abs()))
    {
      hide Next, IndexOf, Distinct;
      if currentProcess != 0 && procs[currentProcess].state.Ready?
        && procs[currentProcess].executions == MAX_PRIORITY - procs[currentProcess].priority
      {
        procs := procs[currentProcess := procs[currentProcess].(executions := 0)];
        currentProcess := nexts[currentProcess];
      }
    }

    /** What holds between iterations of the loop of nextProcess. */
    ghost predicate Walking(s0: Table, k: nat, lapTwo: bool)
      reads this
    {
      var q, m := Ring(s0), StartProcs(s0);
      && WellFormed(s0) && pids == s0.nextPid
      && Linked(nexts, firstProcess, lastProcess, order)
      && (!lapTwo ==> k <= |q| && idleFlag == s0.idleFlag
                      && LapOne(s0, q, m, k, order, procs, currentProcess, firstBlockedIteration))
      && (lapTwo ==> firstBlockedIteration != 0 && idleFlag == 1 && LapTwo(order, procs, currentProcess)
                     && FirstReady(q, m) == |q|
                     && order == Without(s0.order, DeadIn(q, m)) && procs == WakeIdle(m) - DeadIn(q, m))
    }

    /** Termination measure: laps, then processes still to visit or distance to idle, then the wrap. */
    ghost function Remaining(s0: Table, k: nat, lapTwo: bool): nat
      reads this
      requires Walking(s0, k, lapTwo)
    {
      2 * (if lapTwo then Distance(order, currentProcess) else |Ring(s0)| - k) + (if currentProcess == 0 then 1 else 0)
    }

    /** Lines 75-76: NULL wraps to the head. */
    method WrapStep(ghost s0: Table, ghost k: nat, ghost lapTwo: bool)
      requires Walking(s0, k, lapTwo) && currentProcess == 0
      modifies this`currentProcess
      ensures Walking(s0, k, lapTwo) && Remaining(s0, k, lapTwo) < old(Remaining(s0, k, lapTwo))
    {
      hide IndexOf, Next, Distinct, RemoveOne, Rot, Without, Ring, StartProcs, StartAt, WakeIdle, FirstReady, DeadIn, WellFormed;
      if !lapTwo {
        LapWrap(s0, Ring(s0), StartProcs(s0), k, order, procs, firstBlockedIteration);
      } else {
        SameDistance(order);
      }
      NotNull(order);
      currentProcess := firstProcess;
    }

    /** Lines 77-80: a full lap without a READY process wakes idle. */
    method WakeStep(ghost s0: Table, ghost k: nat, ghost lapTwo: bool)
      requires Walking(s0, k, lapTwo) && currentProcess != 0 && currentProcess == firstBlockedIteration
      requires currentProcess in procs && !procs[currentProcess].state.Ready?
      modifies this
      ensures Walking(s0, k, true)
      ensures lapTwo ==> Remaining(s0, k, true) < old(Remaining(s0, k, true))
    {
      hide IndexOf, Next, Distinct, RemoveOne, Rot, Without, Ring, StartProcs, StartAt, WakeIdle, FirstReady, DeadIn, WellFormed;
      ghost var q, m := Ring(s0), StartProcs(s0);
      if !lapTwo {
        LapTurn(s0, q, m, k, order, procs, currentProcess, firstBlockedIteration);
        WakesIdle(procs);
      } else {
        AlreadyAwake(procs);
        Closer(order, currentProcess);
      }
      idleFlag := 1;
      var ok := Unblock(IDLE);
      AfterNext(order, procs, currentProcess);
      NextOf(nexts, firstProcess, lastProcess, order, currentProcess);
      currentProcess := nexts[currentProcess];
    }

    /** Lines 81-85: a dead process is reaped. */
    method ReapStep(ghost s0: Table, ghost k: nat)
      requires Walking(s0, k, false) && currentProcess != 0 && currentProcess != firstBlockedIteration
      requires currentProcess in procs && procs[currentProcess].state.Dead?
      modifies this
      ensures Walking(s0, k + 1, false) && Remaining(s0, k + 1, false) < old(Remaining(s0, k, false))
    {
      hide IndexOf, Next, Distinct, RemoveOne, Rot, Without, Ring, StartProcs, StartAt, WakeIdle, FirstReady, DeadIn, WellFormed, LapTwo, Linked;
      ghost var q, m := Ring(s0), StartProcs(s0);
      LapFront(s0, q, m, k, order, procs, currentProcess, firstBlockedIteration);
      ManyLeft(s0, q, m, k, order, procs, currentProcess, firstBlockedIteration);
      LapReap(s0, q, m, k, order, procs, currentProcess, firstBlockedIteration);
      NextOf(nexts, firstProcess, lastProcess, order, currentProcess);
      RemoveDistinct(order, currentProcess);
      var del := currentProcess;
      currentProcess := nexts[currentProcess];
      RemoveProcess(del);
      NodeFreed(nexts, firstProcess, lastProcess, order, del);
      nexts, procs := nexts - {del}, procs - {del};
    }

    /** Lines 86-91: a blocked process is passed over. */
    method SkipStep(ghost s0: Table, ghost k: nat, ghost lapTwo: bool)
      requires Walking(s0, k, lapTwo) && currentProcess != 0 && currentProcess != firstBlockedIteration
      requires currentProcess in procs && !procs[currentProcess].state.Ready? && !procs[currentProcess].state.Dead?
      modifies this`currentProcess, this`firstBlockedIteration
      ensures Walking(s0, if lapTwo then k else k + 1, lapTwo)
      ensures Remaining(s0, if lapTwo then k else k + 1, lapTwo) < old(Remaining(s0, k, lapTwo))
    {
      hide IndexOf, Next, Distinct, RemoveOne, Rot, Without, Ring, StartProcs, StartAt, WakeIdle, FirstReady, DeadIn, WellFormed, Linked;
      ghost var q, m := Ring(s0), StartProcs(s0);
      if !lapTwo {
        LapFront(s0, q, m, k, order, procs, currentProcess, firstBlockedIteration);
        LapSkip(s0, q, m, k, order, procs, currentProcess, firstBlockedIteration);
      } else {
        Closer(order, currentProcess);
        NextIn(order, currentProcess);
      }
      NextOf(nexts, firstProcess, lastProcess, order, currentProcess);
      if firstBlockedIteration == 0 {
        firstBlockedIteration := currentProcess;
      }
      currentProcess := nexts[currentProcess];
    }

    /** Lines 93-98: idle goes back to sleep when somebody else runs; the choice is counted. */
    method Conclude()
      requires WellFormed(Abs()) && Linked(nexts, firstProcess, lastProcess, order) && currentProcess in procs
      modifies this`procs, this`idleFlag, this`firstBlockedIteration
      ensures firstBlockedIteration == 0
      ensures Abs() == Finish(old(Abs()), old(procs), currentProcess, {}, old(idleFlag))
    {
      hide Without, Finish, Distinct, Linked;
      FinishNow(Abs(), currentProcess, idleFlag);
      if currentProcess != IDLE && idleFlag != 0 {
        idleFlag := 0;
        var ok := SetBlocked(IDLE);
      }
      firstBlockedIteration := 0;
      procs := procs[currentProcess := procs[currentProcess].(executions := Inc(procs[currentProcess].executions))];
    }

    /** nextProcess */
    method NextProcess()
      requires Valid()
      modifies this
      ensures Valid() && Abs() == Dispatch(old(Abs()))
    {
      hide IndexOf, Next, Distinct, RemoveOne, Rot, Without, Ring, StartProcs, StartAt, Finish, WakeIdle, FirstReady, DeadIn, LapOne, LapTwo, Linked, Dispatch, WellFormed, Remaining, IsReady;
      ghost var s0 := Abs();
      Expire();
      LapStart(s0);
      ghost var k: nat, lapTwo := 0, false;
      InWalk(s0, k, lapTwo);
      while currentProcess == 0 || !procs[currentProcess].state.Ready?
        invariant Walking(s0, k, lapTwo)
        invariant currentProcess != 0 ==> currentProcess in procs
        invariant lapTwo && currentProcess != 0 ==> !procs[currentProcess].state.Dead?
        decreases !lapTwo, Remaining(s0, k, lapTwo)
      {
        if currentProcess == 0 {
          WrapStep(s0, k, lapTwo);
        } else if currentProcess == firstBlockedIteration {
          WakeStep(s0, k, lapTwo);
          lapTwo := true;
        } else if procs[currentProcess].state.Dead? {
          ReapStep(s0, k);
          k := k + 1;
        } else {
          SkipStep(s0, k, lapTwo);
          k := if lapTwo then k else k + 1;
        }
        InWalk(s0, k, lapTwo);
      }
      WalkDone(s0, k, lapTwo);
      Conclude();
      DispatchKeeps(s0);
    }

    // ---- system calls --------------------------------------------------------------------

    /** A change of records that keeps the keys and idle's state keeps everything well-formed. */
    lemma RecordsOnly(s: Table, m: map<int, Proc>)
      requires WellFormed(s) && m.Keys == s.procs.Keys && !m[IDLE].state.Dead?
      ensures WellFormed(s.(procs := m))
    {
    }

    /** block */
    method Block(pid: int) returns (ok: bool)
      requires Valid()
      modifies this
      ensures Valid() && Abs() == Sched.Block(old(Abs()), pid)
      ensures ok <==> pid in old(procs) && !old(procs)[pid].state.Dead?
    {
      hide Linked, Distinct, Dispatch, WellFormed;
      ghost var s := Abs();
      Unfold(s);
      ok := SetBlocked(pid);
      if ok {
        if pid == currentProcess {
          procs := procs[currentProcess := procs[currentProcess].(executions := 0)];
          assert procs == s.procs[pid := s.procs[pid].(state := Blocked).(executions := 0)];
        }
        RecordsOnly(s, procs);
        if pid == currentProcess {
          NextProcess();
        }
      }
    }

    lemma Unfold(s: Table)
      requires WellFormed(s)
      ensures Distinct(s.order) && 0 !in s.order && (forall x :: x in s.order <==> x in s.procs)
      ensures IDLE in s.procs && !s.procs[IDLE].state.Dead?
      ensures s.current == 0 || s.current in s.procs
      ensures 0 !in s.procs && s.nextPid !in s.procs && s.nextPid > IDLE
    {
    }

    /** wait */
    method Wait()
      requires Valid()
      modifies this
      ensures Valid() && Abs() == Sched.Wait(old(Abs()))
    {
      hide Linked, Distinct, Dispatch, WellFormed;
      ghost var s := Abs();
      Unfold(s);
      if currentProcess != 0 && procs[currentProcess].children != 0 {
        procs := procs[currentProcess := procs[currentProcess].(state := Waiting)];
        RecordsOnly(s, procs);
        NextProcess();
      }
    }

    /** quitCPU */
    method QuitCPU() returns (ok: bool)
      requires Valid()
      modifies this
      ensures Valid() && Abs() == Sched.QuitCPU(old(Abs()))
      ensures ok <==> old(currentProcess) != 0
    {
      hide Linked, Distinct, Dispatch, WellFormed;
      ghost var s := Abs();
      Unfold(s);
      ok := currentProcess != 0;
      if ok {
        procs := procs[currentProcess := procs[currentProcess].(executions := MAX_PRIORITY - procs[currentProcess].priority)];
        RecordsOnly(s, procs);
        NextProcess();
      }
    }

    /** blockIO */
    method BlockIO() returns (ok: bool)
      requires Valid()
      modifies this
      ensures Valid() && Abs() == Sched.BlockIO(old(Abs()))
      ensures ok <==> old(currentProcess) != 0 && !old(procs)[old(currentProcess)].state.Dead?
    {
      hide Linked, Distinct, Dispatch, WellFormed;
      ghost var s := Abs();
      Unfold(s);
      ok := currentProcess != 0 && !procs[currentProcess].state.Dead?;
      if ok {
        procs := procs[currentProcess := procs[currentProcess].(state := BlockedIO)];
        procs := procs[currentProcess := procs[currentProcess].(executions := 0)];
        assert procs == s.procs[s.current := s.procs[s.current].(state := BlockedIO, executions := 0)];
        RecordsOnly(s, procs);
        NextProcess();
      }
    }

    /** kill */
    method Kill(pid: int) returns (ok: bool)
      requires Valid() && pid != IDLE
      modifies this
      ensures Valid() && Abs() == Sched.Kill(old(Abs()), pid)
      ensures ok <==> pid in old(procs)
    {
      hide Linked, Distinct, Dispatch, WellFormed;
      ghost var s := Abs();
      Unfold(s);
      var del, prev := SearchProcess(pid);
      if del == 0 {
        return false;
      }
      Deprive(procs[del].ppid);
      procs := procs[del := procs[del].(state := Dead)];
      RecordsOnly(s, procs);
      if pid == currentProcess {
        NextProcess();
      }
      return true;
    }

    /** Lines 341-347: the parent, if still listed, loses a child and is woken with its last one. */
    method Deprive(ppid: int)
      requires Linked(nexts, firstProcess, lastProcess, order) && Distinct(order) && 0 !in order
      requires forall x :: x in order <==> x in procs
      modifies this`procs
      ensures procs == LoseChild(old(procs), ppid) && procs.Keys == old(procs).Keys
      ensures forall x :: x in procs ==> procs[x].state == old(procs)[x].state || (old(procs)[x].state.Waiting? && procs[x].state.Ready?)
    {
      hide Linked, Distinct;
      var parent, prev := SearchProcess(ppid);
      if parent != 0 {
        procs := procs[parent := procs[parent].(children := procs[parent].children - 1)];
        if procs[parent].children == 0 && procs[parent].state.Waiting? {
          procs := procs[parent := procs[parent].(state := Ready)];
        }
      }
    }

    /** nice */
    method Nice(pid: int, offset: int) returns (ok: bool)
      requires Valid()
      modifies this
      ensures Valid() && Abs() == Sched.Nice(old(Abs()), pid, offset)
      ensures ok <==> -20 <= offset < 20 && pid in old(procs)
    {
      hide Linked, Distinct, WellFormed;
      ghost var s := Abs();
      Unfold(s);
      if offset >= 20 || offset < -20 {
        return false;
      }
      var del, prev := SearchProcess(pid);
      if del == 0 {
        return false;
      }
      procs := procs[del := procs[del].(priority := offset + 20)];
      RecordsOnly(s, procs);
      return true;
    }

    /** unblockIO: one pass over the list. */
    method UnblockIO()
      requires Valid()
      modifies this`procs
      ensures Valid() && Abs() == Sched.UnblockIO(old(Abs()))
    {
      hide Distinct, WellFormed, IndexOf, Next, Linked, WokenUpTo, Sched.UnblockIO;
      ghost var s := Abs();
      Unfold(s);
      var aux := firstProcess;
      ghost var i := 0;
      HeadIs(nexts, firstProcess, lastProcess, order);
      NoneWoken(s);
      while aux != 0
        invariant 0 <= i <= |order| && aux == (if i < |order| then order[i] else 0)
        invariant procs.Keys == s.procs.Keys && WokenUpTo(s, procs, i)
        decreases |order| - i
      {
        AtIndex(order, i);
        NextOf(nexts, firstProcess, lastProcess, order, aux);
        OneMoreWoken(s, procs, i);
        if procs[aux].state.BlockedIO? {
          procs := procs[aux := procs[aux].(state := Ready)];
        }
        aux := nexts[aux];
        i := i + 1;
      }
      AllWoken(s, procs);
    }

    /** unblockFirst by the running process on another one. */
    method UnblockFirst(pid: int) returns (ok: bool)
      requires Valid() && currentProcess != 0 && pid != currentProcess
      modifies this
      ensures Valid() && Abs() == Sched.UnblockFirst(old(Abs()), pid)
      ensures ok <==> pid in old(procs) && !old(procs)[pid].state.Dead?
    {
      hide Linked, Distinct, Dispatch, WellFormed, MoveAfter, RemoveOne, IndexOf, Next;
      ghost var s := Abs();
      Unfold(s);
      var del, prev := SearchProcess(pid);
      if del == 0 || procs[del].state.Dead? {
        return false;
      }
      Requeue(del);
      procs := procs[currentProcess := procs[currentProcess].(executions := MAX_PRIORITY - procs[currentProcess].priority)];
      procs := procs[del := procs[del].(state := Ready)];
      MoveKeeps(s, pid, procs);
      NextProcess();
      return true;
    }

    /** The list surgery of unblockFirst (lines 302-309). */
    method Requeue(del: int)
      requires Linked(nexts, firstProcess, lastProcess, order) && Distinct(order) && 0 !in order
      requires del in order && currentProcess in order && del != currentProcess
      modifies this`nexts, this`firstProcess, this`lastProcess, this`order
      ensures order == MoveAfter(old(order), currentProcess, del)
      ensures Linked(nexts, firstProcess, lastProcess, order)
    {
      hide Distinct, RemoveOne, IndexOf, Next, Linked;
      RemoveDistinct(order, del);
      RemoveProcess(del);
      ghost var r := order;
      ghost var i := IndexOf(r, currentProcess);
      LinkedInsert(nexts, firstProcess, lastProcess, r, currentProcess, del);
      nexts := nexts[del := nexts[currentProcess]];
      nexts := nexts[currentProcess := del];
      if currentProcess == lastProcess {
        lastProcess := del;
      }
      order := r[..i + 1] + [del] + r[i + 1..];
    }

    /** The tail insertion of enqueueProcess (lines 155, 167-171). */
    method AppendNode(pid: int)
      requires Linked(nexts, firstProcess, lastProcess, order) && Distinct(order) && 0 !in order
      requires pid !in order && order != []
      modifies this`nexts, this`firstProcess, this`lastProcess, this`order
      ensures Linked(nexts, firstProcess, lastProcess, order) && order == old(order) + [pid]
    {
      hide Distinct, IndexOf, Next, Linked;
      LinkedAppend(nexts, firstProcess, lastProcess, order, pid);
      nexts := nexts[pid := 0];
      nexts := if firstProcess == 0 then nexts else nexts[lastProcess := pid];
      firstProcess := if firstProcess == 0 then pid else firstProcess;
      lastProcess := pid;
      order := order + [pid];
    }

    /** enqueueProcess */
    method EnqueueProcess(foreground: bool) returns (pid: int)
      requires Valid() && (idleFlag == 0 ==> currentProcess != IDLE)
      modifies this
      ensures Valid() && Abs() == Spawn(old(Abs()), foreground) && pid == old(pids)
    {
      hide Distinct, IndexOf, Next, Linked, WellFormed;
      ghost var s := Abs();
      Unfold(s);
      if idleFlag == 0 {
        var ok := SetBlocked(IDLE);
      }
      if currentProcess != 0 {
        procs := procs[currentProcess := procs[currentProcess].(children := procs[currentProcess].children + 1)];
      }
      pid := pids;
      pids := pids + 1;
      procs := procs[pid := Proc(currentProcess, if foreground then 0 else MAX_PRIORITY / 2, 0, Ready, 0)];
      AppendNode(pid);
      SpawnKeeps(s, foreground);
    }

    lemma InWalk(s0: Table, k: nat, lapTwo: bool)
      requires Walking(s0, k, lapTwo)
      ensures currentProcess != 0 ==> currentProcess in procs
      ensures lapTwo && currentProcess != 0 ==> !procs[currentProcess].state.Dead?
    {
      if !lapTwo && currentProcess != 0 {
        LapFront(s0, Ring(s0), StartProcs(s0), k, order, procs, currentProcess, firstBlockedIteration);
      }
    }

    lemma WalkDone(s0: Table, k: nat, lapTwo: bool)
      requires Walking(s0, k, lapTwo) && currentProcess in procs && procs[currentProcess].state.Ready? && currentProcess != 0
      ensures WellFormed(Abs())
      ensures Dispatch(s0) == Finish(Abs(), procs, currentProcess, {}, idleFlag)
    {
      hide Without, Rot, StartProcs, StartAt, Ring, DeadIn, Finish, Distinct, WakeIdle, FirstReady, LapOne, LapTwo, WellFormed;
      if lapTwo {
        DoneInLapTwo(s0, Abs());
      } else {
        DoneInLapOne(s0, k, Abs(), firstBlockedIteration);
      }
    }
  }

  /** The end of nextProcess when nothing is left to reap. */
  lemma FinishNow(s: Table, chosen: int, flag: int)
    requires WellFormed(s) && chosen in s.procs
    ensures !s.procs[IDLE].state.Dead? && IDLE in s.procs
    ensures
      var m := if chosen != IDLE && flag != 0 then SetProc(s.procs, IDLE, s.procs[IDLE].(state := Blocked)) else s.procs;
      Finish(s, s.procs, chosen, {}, flag) ==
      Table(s.order, m[chosen := m[chosen].(executions := Inc(m[chosen].executions))], chosen,
            if chosen != IDLE then 0 else flag, s.nextPid)
  {
    WithoutNone(s.order);
    assert s.procs - {} == s.procs;
  }

  lemma NotNull(order: seq<int>)
    requires 0 !in order
    ensures order != [] ==> order[0] != 0 && order[0] in order
  {
  }

  lemma NextOf(nexts: map<int, int>, first: int, last: int, order: seq<int>, x: int)
    requires Linked(nexts, first, last, order) && x in order
    ensures x in nexts && nexts[x] == Next(order, x)
  {
  }

  lemma WakesIdle(m: map<int, Proc>)
    requires IDLE in m && !m[IDLE].state.Dead?
    ensures m[IDLE := m[IDLE].(state := Ready)] == WakeIdle(m)
  {
  }

  lemma AlreadyAwake(m: map<int, Proc>)
    requires IDLE in m && m[IDLE].state.Ready?
    ensures m[IDLE := m[IDLE].(state := Ready)] == m
  {
  }

  lemma AfterNext(order: seq<int>, procs: map<int, Proc>, x: int)
    requires LapTwo(order, procs, x) && x in order
    ensures LapTwo(order, procs, Next(order, x))
  {
    NextIn(order, x);
  }

  // A list holding a dead process also holds idle.
  lemma ManyLeft(s0: Table, q: seq<int>, m: map<int, Proc>, k: nat,
                 order: seq<int>, procs: map<int, Proc>, cur: int, firstBlocked: int)
    requires WellFormed(s0) && m == StartProcs(s0)
    requires LapOne(s0, q, m, k, order, procs, cur, firstBlocked) && cur != 0 && IsDead(m, cur)
    ensures |order| > 1
  {
    hide Without, Rot, StartProcs, StartAt, IsReady, Distinct;
    StartKeys(s0);
    WithoutMember(s0.order, DeadIn(q[..k], m), IDLE);
    assert IDLE in order && cur in order && cur != IDLE;
  }

  lemma NodeFreed(nexts: map<int, int>, first: int, last: int, order: seq<int>, x: int)
    requires Linked(nexts, first, last, order) && x !in order
    ensures Linked(nexts - {x}, first, last, order)
  {
  }

  /** The first i processes of the list have been woken. */
  ghost predicate WokenUpTo(s: Table, m: map<int, Proc>, i: int) {
    && m.Keys == s.procs.Keys
    && (forall x :: x in s.order ==> x in m)
    && forall j :: 0 <= j < |s.order| ==>
         m[s.order[j]] == if j < i then WokenIO(s.procs[s.order[j]]) else s.procs[s.order[j]]
  }

  lemma NoneWoken(s: Table)
    requires WellFormed(s)
    ensures WokenUpTo(s, s.procs, 0)
  {
  }

  lemma OneMoreWoken(s: Table, m: map<int, Proc>, i: nat)
    requires WellFormed(s) && WokenUpTo(s, m, i) && i < |s.order|
    ensures
      var x := s.order[i];
      x in m && WokenUpTo(s, if m[x].state.BlockedIO? then m[x := m[x].(state := Ready)] else m, i + 1)
  {
    assert s.order[i] in s.order;
    forall j | 0 <= j < |s.order| && j != i ensures s.order[j] != s.order[i] {}
  }

  lemma AllWoken(s: Table, m: map<int, Proc>)
    requires WellFormed(s) && WokenUpTo(s, m, |s.order|)
    ensures m == UnblockIO(s).procs && WellFormed(s.(procs := m)) && s.(procs := m) == UnblockIO(s)
  {
    forall x | x in m ensures m[x] == WokenIO(s.procs[x]) {
      var j :| 0 <= j < |s.order| && s.order[j] == x;
    }
    assert m == UnblockIO(s).procs;
  }

  lemma HeadIs(nexts: map<int, int>, first: int, last: int, order: seq<int>)
    requires Linked(nexts, first, last, order)
    ensures first == if |order| > 0 then order[0] else 0
  {
  }

  /** Putting x right behind cur. */
  lemma LinkedInsert(nexts: map<int, int>, first: int, last: int, r: seq<int>, cur: int, x: int)
    requires Linked(nexts, first, last, r) && Distinct(r) && 0 !in r && cur in r && x !in r && x != 0
    ensures cur in nexts
    ensures
      var i := IndexOf(r, cur);
      var n := nexts[x := nexts[cur]];
      Linked(n[cur := x], first, if cur == last then x else last, r[..i + 1] + [x] + r[i + 1..])
  {
    hide IndexOf, Next, Distinct;
    var i := IndexOf(r, cur);
    var o := r[..i + 1] + [x] + r[i + 1..];
    AtIndex(r, i);
    LastIs(r, i);
    InsertDistinct(r, i, x);
    forall y | y in o ensures
      var n := nexts[x := nexts[cur]][cur := x];
      y in n && n[y] == Next(o, y)
    {
      var j := IndexOf(o, y);
      AtIndex(o, j);
      if j != i + 1 {
        var k := if j <= i then j else j - 1;
        assert o[j] == r[k];
        AtIndex(r, k);
        SameAt(r, i, k);
      }
    }
  }

  lemma InsertDistinct(r: seq<int>, i: nat, x: int)
    requires Distinct(r) && i < |r| && x !in r
    ensures Distinct(r[..i + 1] + [x] + r[i + 1..])
  {
    var o := r[..i + 1] + [x] + r[i + 1..];
    forall j, k | 0 <= j < k < |o| ensures o[j] != o[k] {
      if j != i + 1 && k != i + 1 {
        assert o[j] == r[if j <= i then j else j - 1] && o[k] == r[if k <= i then k else k - 1];
      }
    }
  }

  lemma LinkedAppend(nexts: map<int, int>, first: int, last: int, order: seq<int>, x: int)
    requires Linked(nexts, first, last, order) && Distinct(order) && 0 !in order && x !in order && order != []
    ensures first != 0 && last in order
    ensures Linked(nexts[x := 0][last := x], first, x, order + [x]) && Distinct(order + [x])
  {
    hide IndexOf, Next;
    var o := order + [x];
    forall y | y in o ensures
      var n := nexts[x := 0][last := x];
      y in n && n[y] == Next(o, y)
    {
      var j := IndexOf(o, y);
      AtIndex(o, j);
      if j < |order| {
        AtIndex(order, j);
        LastIs(order, j);
      }
    }
  }

  /** Reordering keeps the table well-formed. */
  lemma MoveKeeps(s: Table, pid: int, m: map<int, Proc>)
    requires WellFormed(s) && pid in s.procs && s.current in s.procs && pid != s.current
    requires m.Keys == s.procs.Keys && !m[IDLE].state.Dead?
    ensures WellFormed(s.(order := MoveAfter(s.order, s.current, pid), procs := m))
  {
    hide RemoveOne, IndexOf;
    RemoveDistinct(s.order, pid);
    var r := RemoveOne(s.order, pid);
    var i := IndexOf(r, s.current);
    InsertDistinct(r, i, pid);
    var o := MoveAfter(s.order, s.current, pid);
    assert r == r[..i + 1] + r[i + 1..];
    forall x ensures x in o <==> x in r || x == pid {}
  }

  lemma SpawnKeeps(s: Table, foreground: bool)
    requires WellFormed(s)
    ensures WellFormed(Spawn(s, foreground))
  {
    var t := Spawn(s, foreground);
    assert s.nextPid !in s.order;
    assert t.procs.Keys == s.procs.Keys + {s.nextPid};
  }
}
