/** The scheduler of Kernel/utils/scheduler.c as operations on values: the process list in order,
    the process records, the running process and the idle flag. */
module Sched {
  import opened Rotation

  const IDLE := 1            // IDLE_PID
  const MAX_PRIORITY := 40

  datatype State = Ready | Dead | Blocked | Waiting | BlockedIO

  datatype Proc = Proc(ppid: int, priority: int, executions: int, state: State, children: int)

  /** current is 0 before the first dispatch. */
  datatype Table = Table(order: seq<int>, procs: map<int, Proc>, current: int, idleFlag: int, nextPid: int)

  function Quantum(p: Proc): int { MAX_PRIORITY - p.priority }

  /** `executions++` on a signed char. */
  function Inc(e: int): int { if e == 127 then -128 else e + 1 }

  ghost predicate WellFormed(s: Table) {
    && Distinct(s.order) && 0 !in s.order
    && (forall x :: x in s.order <==> x in s.procs)
    && (forall x :: x in s.procs ==> 0 < x < s.nextPid)
    && IDLE in s.procs && !s.procs[IDLE].state.Dead?
    && (s.current == 0 || s.current in s.procs)
  }

  // ---- nextProcess --------------------------------------------------------------

  /** The running process has used up its quantum (lines 68-69). */
  predicate Expired(s: Table) {
    s.current in s.procs && s.procs[s.current].state.Ready?
    && s.procs[s.current].executions == Quantum(s.procs[s.current])
  }

  function SetProc(m: map<int, Proc>, x: int, p: Proc): map<int, Proc> { m[x := p] }

  function StartProcs(s: Table): map<int, Proc> {
    if Expired(s) then SetProc(s.procs, s.current, s.procs[s.current].(executions := 0)) else s.procs
  }

  /** Where the walk over the list starts. */
  function StartAt(s: Table): int {
    if Expired(s) && s.current in s.order then Next(s.order, s.current) else s.current
  }

  function Ring(s: Table): seq<int> { Rot(s.order, StartAt(s)) }

  predicate IsReady(m: map<int, Proc>, x: int) { x in m && m[x].state.Ready? }

  predicate IsDead(m: map<int, Proc>, x: int) { x in m && m[x].state.Dead? }

  /** Index of the first READY process of q, or |q|. */
  function FirstReady(q: seq<int>, m: map<int, Proc>): (k: nat)
    ensures k <= |q| && (k < |q| ==> IsReady(m, q[k]))
    ensures forall i :: 0 <= i < k ==> !IsReady(m, q[i])
  {
    if q == [] || IsReady(m, q[0]) then 0
    else
      var k := 1 + FirstReady(q[1..], m);
      assert forall i :: 0 < i < k ==> q[i] == q[1..][i - 1];
      k
  }

  ghost function DeadIn(q: seq<int>, m: map<int, Proc>): set<int> {
    set x | x in q && IsDead(m, x)
  }

  /** Lines 93-98, once the process to run has been found and `dead` has been reaped. */
  function Finish(s: Table, m: map<int, Proc>, chosen: int, dead: set<int>, flag: int): Table {
    var m1 := m - dead;
    var m2 := if chosen != IDLE && flag != 0 && IDLE in m1 then SetProc(m1, IDLE, m1[IDLE].(state := Blocked)) else m1;
    var m3 := if chosen in m2 then SetProc(m2, chosen, m2[chosen].(executions := Inc(m2[chosen].executions))) else m2;
    Table(Without(s.order, dead), m3, chosen, if chosen != IDLE then 0 else flag, s.nextPid)
  }

  function WakeIdle(m: map<int, Proc>): map<int, Proc> {
    if IDLE in m && !m[IDLE].state.Dead? then SetProc(m, IDLE, m[IDLE].(state := Ready)) else m
  }

  /** nextProcess: the first READY process of the ring runs, the dead ones before it are reaped; if
      nobody is READY all the dead are reaped and idle is woken. */
  ghost function Dispatch(s: Table): Table {
    var q, m := Ring(s), StartProcs(s);
    var k := FirstReady(q, m);
    if k < |q| then Finish(s, m, q[k], DeadIn(q[..k], m), s.idleFlag)
    else Finish(s, WakeIdle(m), IDLE, DeadIn(q, m), 1)
  }

  /** The process nextProcess picks. */
  function Chosen(s: Table): int {
    var q, m := Ring(s), StartProcs(s);
    var k := FirstReady(q, m);
    if k < |q| then q[k] else IDLE
  }

  // ---- system calls -----------------------------------------------------------------

  ghost function Block(s: Table, pid: int): Table {
    if pid !in s.procs || s.procs[pid].state.Dead? then s
    else
      var p := s.procs[pid].(state := Blocked);
      if pid == s.current then Dispatch(s.(procs := s.procs[pid := p.(executions := 0)]))
      else s.(procs := s.procs[pid := p])
  }

  function Unblock(s: Table, pid: int): Table {
    if pid !in s.procs || s.procs[pid].state.Dead? then s
    else s.(procs := s.procs[pid := s.procs[pid].(state := Ready)])
  }

  function MoveAfter(order: seq<int>, cur: int, x: int): seq<int>
    requires x in order && cur in order && cur != x && Distinct(order)
  {
    RemoveDistinct(order, x);
    var r := RemoveOne(order, x);
    var i := IndexOf(r, cur);
    r[..i + 1] + [x] + r[i + 1..]
  }

  /** unblockFirst up to its forceTimer: the target goes right behind the caller, whose quantum ends. */
  ghost function Promote(s: Table, pid: int): Table
    requires WellFormed(s) && pid in s.procs && s.current in s.procs && pid != s.current
  {
    var c := s.procs[s.current];
    var m := s.procs[s.current := c.(executions := Quantum(c))];
    s.(order := MoveAfter(s.order, s.current, pid), procs := m[pid := m[pid].(state := Ready)])
  }

  ghost function UnblockFirst(s: Table, pid: int): Table
    requires WellFormed(s) && s.current in s.procs && pid != s.current
  {
    if pid !in s.procs || s.procs[pid].state.Dead? then s else Dispatch(Promote(s, pid))
  }

  /** A child of `parent` is gone: the last one wakes a waiting parent (lines 343-347). */
  function LoseChild(m: map<int, Proc>, parent: int): map<int, Proc> {
    if parent !in m then m
    else
      var p := m[parent].(children := m[parent].children - 1);
      m[parent := if p.children == 0 && p.state.Waiting? then p.(state := Ready) else p]
  }

  function Bury(m: map<int, Proc>, pid: int): map<int, Proc>
    requires pid in m
  {
    var l := LoseChild(m, m[pid].ppid);
    l[pid := l[pid].(state := Dead)]
  }

  ghost function Kill(s: Table, pid: int): Table {
    if pid !in s.procs then s
    else
      var t := s.(procs := Bury(s.procs, pid));
      if pid == s.current then Dispatch(t) else t
  }

  ghost function Wait(s: Table): Table {
    if s.current !in s.procs || s.procs[s.current].children == 0 then s
    else Dispatch(s.(procs := s.procs[s.current := s.procs[s.current].(state := Waiting)]))
  }

  ghost function QuitCPU(s: Table): Table {
    if s.current !in s.procs then s
    else
      var c := s.procs[s.current];
      Dispatch(s.(procs := s.procs[s.current := c.(executions := Quantum(c))]))
  }

  ghost function BlockIO(s: Table): Table {
    if s.current !in s.procs || s.procs[s.current].state.Dead? then s
    else Dispatch(s.(procs := s.procs[s.current := s.procs[s.current].(state := BlockedIO, executions := 0)]))
  }

  function WokenIO(p: Proc): Proc { if p.state.BlockedIO? then p.(state := Ready) else p }

  function UnblockIO(s: Table): Table {
    s.(procs := map x | x in s.procs :: WokenIO(s.procs[x]))
  }

  function Nice(s: Table, pid: int, offset: int): Table {
    if offset >= 20 || offset < -20 || pid !in s.procs then s
    else s.(procs := s.procs[pid := s.procs[pid].(priority := offset + 20)])
  }

  /** enqueueProcess; a caller-less process gets parent 0. */
  function Spawn(s: Table, foreground: bool): Table {
    var m0 := if s.idleFlag == 0 && IDLE in s.procs && !s.procs[IDLE].state.Dead?
              then s.procs[IDLE := s.procs[IDLE].(state := Blocked)] else s.procs;
    var m1 := if s.current in m0 then m0[s.current := m0[s.current].(children := m0[s.current].children + 1)] else m0;
    var p := Proc(s.current, if foreground then 0 else MAX_PRIORITY / 2, 0, Ready, 0);
    s.(order := s.order + [s.nextPid], procs := m1[s.nextPid := p], nextPid := s.nextPid + 1)
  }

  /** initScheduler: only idle, at the lowest priority. */
  function Boot(): Table {
    Table([IDLE], map[IDLE := Proc(0, 39, 0, Ready, 0)], 0, 2, IDLE + 1)
  }
}
