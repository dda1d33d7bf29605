/** Scheduler and semaphores as one step machine (Kernel/utils/sem.c, Kernel/utils/scheduler.c).
    System calls enter through an interrupt gate, so a kernel path is atomic except where it calls
    forceTimer; a process switched out there continues at its `Resume` step. */
module Kernel {
  import opened Rotation
  import opened Sched
  import opened SchedInvariants

  const UINT := 0x1_0000_0000   // `value` is an unsigned int

  /** Where a process continues when it is dispatched: user code, semWait after block (line 120), or
      semPost after unblockFirst (line 139). */
  datatype Pc = User | WaitResume(sem: int) | PostResume

  /** value and the waiter queue, then history: initial value, posts, completed waits, and the
      processes that queued up and that were popped, in order. */
  datatype Sem = Sem(value: nat, queue: seq<int>,
                     initial: nat, posted: nat, taken: nat, arrived: seq<int>, served: seq<int>)

  datatype Machine = Machine(t: Table, sems: map<int, Sem>, pcs: map<int, Pc>, semLock: bool)

  datatype Event =
    | Tick | Keyboard | Resume
    | SemOpen(s: int, v: nat) | SemWait(s: int) | SemPost(s: int)
    | BlockPid(pid: int) | UnblockPid(pid: int) | KillPid(pid: int) | NicePid(pid: int, offset: int)
    | WaitChildren | Quit | ReadBlocks | SpawnChild(foreground: bool)

  // ---- the semaphore paths ---------------------------------------------------------

  /** enter_region would spin forever on a held lock, so holding it is excluded here. */
  function Enter(k: Machine): Machine
    requires !k.semLock
  {
    k.(semLock := true)
  }

  function Leave(k: Machine): Machine { k.(semLock := false) }

  /** Every context switch happens with semLock free. */
  function Switch(k: Machine, t: Table): Machine
    requires !k.semLock
  {
    k.(t := t)
  }

  function Put(k: Machine, s: int, m: Sem): Machine { k.(sems := k.sems[s := m]) }

  /** semWait up to its end or its block. */
  ghost function WaitPath(k: Machine, s: int): Machine
    requires !k.semLock && s in k.sems
  {
    var k1 := Enter(k);
    var m, p := k1.sems[s], k1.t.current;
    if m.value > 0 then
      Leave(Put(k1, s, m.(value := m.value - 1, taken := m.taken + 1)))
    else
      var k2 := Put(Leave(k1), s, m.(queue := m.queue + [p], arrived := m.arrived + [p]));
      Switch(k2.(pcs := k2.pcs[p := WaitResume(s)]), Block(k2.t, p))
  }

  /** semPost up to its end or its unblockFirst. */
  ghost function PostPath(k: Machine, s: int): Machine
    requires !k.semLock && s in k.sems && WellFormed(k.t) && k.t.current in k.t.procs
    requires k.t.current !in k.sems[s].queue
  {
    var k1 := Enter(k);
    var m, p := k1.sems[s], k1.t.current;
    var m1 := m.(value := (m.value + 1) % UINT, posted := m.posted + 1);
    if m1.queue == [] then
      Leave(Put(k1, s, m1))
    else
      var w := m1.queue[0];
      var k2 := Leave(Put(k1, s, m1.(queue := m1.queue[1..], served := m1.served + [w])));
      if IsAlive(k2.t, w) then
        Switch(k2.(pcs := k2.pcs[p := PostResume]), UnblockFirst(k2.t, w))
      else k2
  }

  predicate IsAlive(t: Table, x: int) { x in t.procs && !t.procs[x].state.Dead? }

  /** The rest of a kernel path once its process is dispatched again. */
  function ResumePath(k: Machine): Machine
    requires !k.semLock && k.t.current in k.pcs && (k.pcs[k.t.current].WaitResume? ==> k.pcs[k.t.current].sem in k.sems)
  {
    var k1 := Enter(k);
    var p := k1.t.current;
    var k2 := if k1.pcs[p].WaitResume? then
                var s := k1.pcs[p].sem;
                var m := k1.sems[s];
                Put(k1, s, m.(value := (m.value - 1) % UINT, taken := m.taken + 1))
              else k1;
    Leave(k2.(pcs := k2.pcs[p := User]))
  }

  // ---- steps -------------------------------------------------------------------------

  ghost predicate Queued(k: Machine, x: int) {
    exists s :: s in k.sems && x in k.sems[s].queue
  }

  /** Which event can happen next.  A process in the middle of a kernel path runs with interrupts off;
      idle makes no calls and is nobody's target; queued waiters are only woken by a post; a dead
      process is not killed again. */
  ghost predicate Enabled(k: Machine, e: Event) {
    var c := k.t.current;
    if c == 0 then e.Tick? || e.SpawnChild?
    else if c in k.pcs && !k.pcs[c].User? then e.Resume?
    else
      match e
      case Tick => true
      case Keyboard => true
      case Resume => false
      case SemOpen(s, v) => c != IDLE && v < UINT
      case SemWait(s) => c != IDLE && s in k.sems
      case SemPost(s) => c != IDLE && s in k.sems
      case BlockPid(x) => c != IDLE && x != IDLE
      case UnblockPid(x) => c != IDLE && x != IDLE && !Queued(k, x)
      case KillPid(x) => c != IDLE && x != IDLE && !Queued(k, x) && (x in k.t.procs ==> !k.t.procs[x].state.Dead?)
      case NicePid(x, _) => c != IDLE && x != IDLE
      case _ => c != IDLE
  }

  /** Everything the machine keeps. */
  ghost predicate Inv(k: Machine) {
    && !k.semLock
    && WellFormed(k.t) && IdleRests(k.t) && Family(k.t.procs)
    && (k.t.current != 0 ==> k.t.procs[k.t.current].state.Ready?)
    && SemInv(k)
  }

  /** The running process was just handed semaphore s and has not taken it yet. */
  ghost predicate InFlight(k: Machine, s: int) {
    k.t.current != 0 && k.t.current in k.pcs && k.pcs[k.t.current] == WaitResume(s)
  }

  ghost predicate SemInv(k: Machine) {
    && (forall x :: x in k.t.procs ==> x in k.pcs)
    && IDLE in k.pcs && k.pcs[IDLE].User?
    && (forall x :: x in k.t.procs && k.pcs[x].WaitResume? ==> Accounted(k, x, k.pcs[x].sem))
    && (forall s :: s in k.sems ==> SemOk(k, s))
  }

  /** A process inside semWait is queued there, or is the one in flight. */
  ghost predicate Accounted(k: Machine, x: int, s: int) {
    s in k.sems && (x == k.t.current || x in k.sems[s].queue)
  }

  ghost predicate Waits(k: Machine, x: int, s: int) {
    && x in k.t.procs && k.t.procs[x].state.Blocked?
    && x in k.pcs && k.pcs[x] == WaitResume(s)
    && x != k.t.current && x != IDLE
  }

  /** The value is what is left of the initial value and the posts, modulo the width of the word, and
      never more than that. */
  predicate Balanced(m: Sem) {
    && m.value == (m.initial + m.posted - m.taken) % UINT
    && m.taken + m.value <= m.initial + m.posted
  }

  ghost predicate SemOk(k: Machine, s: int)
    requires s in k.sems
  {
    var m := k.sems[s];
    && Distinct(m.queue) && (forall x :: x in m.queue ==> Waits(k, x, s))
    && m.arrived == m.served + m.queue
    && m.value < UINT
    && Balanced(m)
    && (if InFlight(k, s) then m.value == 1 else m.value > 0 ==> m.queue == [])
  }

  ghost function Step(k: Machine, e: Event): Machine
    requires Inv(k) && Enabled(k, e)
  {
    match e
    case Tick => Switch(k, Dispatch(k.t))
    case Keyboard => k.(t := UnblockIO(k.t))
    case Resume => ResumePath(k)
    case SemOpen(s, v) => if s in k.sems then k else Put(k, s, Sem(v, [], v, 0, 0, [], []))
    case SemWait(s) => WaitPath(k, s)
    case SemPost(s) => PostPath(k, s)
    case BlockPid(x) => Switch(k, Block(k.t, x))
    case UnblockPid(x) => k.(t := Unblock(k.t, x))
    case KillPid(x) => Switch(k, Kill(k.t, x))
    case NicePid(x, o) => k.(t := Nice(k.t, x, o))
    case WaitChildren => Switch(k, Wait(k.t))
    case Quit => Switch(k, QuitCPU(k.t))
    case ReadBlocks => Switch(k, BlockIO(k.t))
    case SpawnChild(f) => k.(t := Spawn(k.t, f), pcs := k.pcs[k.t.nextPid := User])
  }

  function Init(): Machine {
    Machine(Boot(), map[], map[IDLE := User], false)
  }
}
