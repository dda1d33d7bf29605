/** What each scheduler call does to the table, record by record and in plain numbers
    (Kernel/utils/scheduler.c). */
module SchedEffects {
  import opened Rotation
  import opened Sched
  import opened SchedWalk
  import opened SchedInvariants

  // ---- nextProcess -----------------------------------------------------------------------

  /** Position reached from i after following `next` d times on a list of n, NULL leading to the head. */
  function After(n: nat, i: nat, d: nat): nat
    requires i < n && d < n
  {
    if i + d < n then i + d else i + d - n
  }

  /** Where the walk over the list begins: at the head before the first dispatch, behind a running process
      that has used up its 40 - priority ticks, and at the running process otherwise. */
  ghost predicate BeginsAt(s: Table, i: nat) {
    && i < |s.order|
    && (s.current == 0 ==> i == 0)
    && (s.current in s.procs ==>
          var p := s.procs[s.current];
          if p.state.Ready? && p.executions == 40 - p.priority
          then s.order[if i == 0 then |s.order| - 1 else i - 1] == s.current
          else s.order[i] == s.current)
  }

  predicate ReadyAt(s: Table, i: int) {
    0 <= i < |s.order| && s.order[i] in s.procs && s.procs[s.order[i]].state.Ready?
  }

  lemma RingBegins(s: Table) returns (i: nat)
    requires WellFormed(s)
    ensures BeginsAt(s, i)
    ensures Ring(s) == s.order[i..] + s.order[..i]
  {
    FromNull(s.order);
    assert s.order != [];
    if s.current == 0 {
      i := 0;
    } else {
      var j := IndexOf(s.order, s.current);
      AtIndex(s.order, j);
      i := if !Expired(s) then j else if j + 1 < |s.order| then j + 1 else 0;
      if i < |s.order| && i > 0 { AtIndex(s.order, i); }
    }
  }

  ghost predicate PassedBy(s: Table, i: nat, d: nat, x: int)
    requires i < |s.order| && d <= |s.order|
  {
    exists e :: 0 <= e < d && s.order[After(|s.order|, i, e)] == x
  }

  /** The DEAD processes passed on the way. */
  ghost function Reaped(s: Table, i: nat, d: nat): set<int>
    requires i < |s.order| && d <= |s.order|
  {
    set x | x in s.procs && s.procs[x].state.Dead? && PassedBy(s, i, d, x)
  }

  lemma RingAt(s: Table, i: nat, e: nat)
    requires i < |s.order| && e < |s.order| && Ring(s) == s.order[i..] + s.order[..i]
    ensures Ring(s)[e] == s.order[After(|s.order|, i, e)]
  {
    hide Ring;
  }

  lemma ReapedInRing(s: Table, i: nat, d: nat)
    requires WellFormed(s) && i < |s.order| && d <= |s.order| && Ring(s) == s.order[i..] + s.order[..i]
    ensures Reaped(s, i, d) == DeadIn(Ring(s)[..d], StartProcs(s))
  {
    hide Ring;
    var q := Ring(s)[..d];
    forall x ensures x in q <==> PassedBy(s, i, d, x) {
      forall e | 0 <= e < d ensures q[e] == s.order[After(|s.order|, i, e)] { RingAt(s, i, e); }
    }
    forall x ensures x in Reaped(s, i, d) <==> x in DeadIn(q, StartProcs(s)) {}
  }

  /** The process nextProcess leaves running is the READY one reached first by following `next` from
      where the walk begins, or idle if there is none; the processes it removes are the DEAD ones passed
      on the way, and the others keep their order. */
  lemma DispatchFollowsNext(s: Table) returns (i: nat, d: nat)
    requires WellFormed(s)
    ensures BeginsAt(s, i) && d <= |s.order|
    ensures forall e :: 0 <= e < d ==> !ReadyAt(s, After(|s.order|, i, e))
    ensures d < |s.order| ==> ReadyAt(s, After(|s.order|, i, d)) && Dispatch(s).current == s.order[After(|s.order|, i, d)]
    ensures d == |s.order| ==> Dispatch(s).current == IDLE
    ensures Dispatch(s).procs.Keys == s.procs.Keys - Reaped(s, i, d) && Dispatch(s).order == Without(s.order, Reaped(s, i, d))
  {
    hide Ring, Without, BeginsAt, DeadIn, Reaped;
    i := RingBegins(s);
    Begins(s, i);
    var q, m := Ring(s), StartProcs(s);
    d := FirstReady(q, m);
    StartKeys(s);
    forall e | 0 <= e < |q| ensures IsReady(m, q[e]) <==> ReadyAt(s, After(|s.order|, i, e)) { RingAt(s, i, e); }
    if d < |q| { RingAt(s, i, d); }
    ReapedInRing(s, i, d);
    assert d == |q| ==> q[..d] == q;
    DispatchKeys(s);
  }

  lemma Begins(s: Table, i: nat)
    requires BeginsAt(s, i)
    ensures i < |s.order|
  {
  }

  lemma DispatchKeys(s: Table)
    requires WellFormed(s)
    ensures
      var q, m := Ring(s), StartProcs(s);
      var k := FirstReady(q, m);
      var dead := DeadIn(if k < |q| then q[..k] else q, m);
      Dispatch(s).procs.Keys == s.procs.Keys - dead && Dispatch(s).order == Without(s.order, dead)
  {
    hide Ring, Without;
    var q, m := Ring(s), StartProcs(s);
    var k := FirstReady(q, m);
    var part := if k < |q| then q[..k] else q;
    StartKeys(s);
    RingKeys(s);
    DeadExcludes(part, m, IDLE);
    if k < |q| { DeadExcludes(part, m, q[k]); }
  }

  // ---- records ------------------------------------------------------------------------------

  /** q is p with one more tick counted if it ran. */
  predicate Ticked(p: Proc, q: Proc, ran: bool) {
    q == p.(executions := if ran then Inc(p.executions) else p.executions)
  }

  /** After a switch every record outside `who`, idle's aside, is as before, up to the tick of the process
      that runs; only DEAD ones may be gone and nothing is new. */
  ghost predicate OthersAsBefore(s: Table, r: Table, who: set<int>) {
    && (forall y :: y in r.procs ==> y in s.procs)
    && forall y :: y in s.procs && y !in who && y != IDLE ==>
         if y in r.procs then Ticked(s.procs[y], r.procs[y], y == r.current) else s.procs[y].state.Dead?
  }

  /** Without a switch every record outside `who` is as before. */
  ghost predicate OnlyRecords(s: Table, r: Table, who: set<int>) {
    && r.order == s.order && r.current == s.current && r.idleFlag == s.idleFlag && r.nextPid == s.nextPid
    && r.procs.Keys == s.procs.Keys && forall y :: y in s.procs && y !in who ==> r.procs[y] == s.procs[y]
  }

  /** The running process, with its record now p and not READY, gives up the processor. */
  lemma GivesUp(s: Table, p: Proc)
    requires WellFormed(s) && s.current in s.procs && s.current != IDLE && !p.state.Ready? && !p.state.Dead?
    ensures
      var c, r := s.current, Dispatch(s.(procs := s.procs[s.current := p]));
      c in r.procs && r.procs[c] == p && r.current != c && OthersAsBefore(s, r, {c})
  {
    hide Dispatch, Chosen;
    var u := s.(procs := s.procs[s.current := p]);
    DispatchEffect(u);
  }

  /** The running process ends its quantum but stays READY. */
  lemma EndsQuantum(s: Table, p: Proc)
    requires WellFormed(s) && s.current in s.procs && s.current != IDLE && p.state.Ready? && p.executions == Quantum(p)
    ensures
      var c, r := s.current, Dispatch(s.(procs := s.procs[s.current := p]));
      c in r.procs && Ticked(p.(executions := 0), r.procs[c], c == r.current) && OthersAsBefore(s, r, {c})
  {
    hide Dispatch, Chosen;
    var u := s.(procs := s.procs[s.current := p]);
    DispatchEffect(u);
  }

  // ---- the calls --------------------------------------------------------------------------------

  /** block: the target is BLOCKED; the caller itself also loses its ticks and the processor. */
  lemma BlockEffect(s: Table, pid: int)
    requires WellFormed(s) && pid != IDLE
    ensures
      var r := Block(s, pid);
      if pid !in s.procs || s.procs[pid].state.Dead? then r == s
      else if pid != s.current then OnlyRecords(s, r, {pid}) && r.procs[pid] == s.procs[pid].(state := Blocked)
      else
        && pid in r.procs && r.procs[pid] == s.procs[pid].(state := Blocked, executions := 0)
        && r.current != pid && OthersAsBefore(s, r, {pid})
  {
    hide Dispatch;
    if pid in s.procs && !s.procs[pid].state.Dead? && pid == s.current {
      GivesUp(s, s.procs[pid].(state := Blocked, executions := 0));
    }
  }

  /** unblock: the target is READY, and nothing else changes. */
  lemma UnblockEffect(s: Table, pid: int)
    ensures
      var r := Unblock(s, pid);
      if pid in s.procs && !s.procs[pid].state.Dead? then
        OnlyRecords(s, r, {pid}) && r.procs[pid] == s.procs[pid].(state := Ready)
      else r == s
  {
  }

  /** wait: a caller with children is WAITING and gives up the processor. */
  lemma WaitEffect(s: Table)
    requires WellFormed(s) && s.current != IDLE
    ensures
      var c, r := s.current, Wait(s);
      if c == 0 || s.procs[c].children == 0 then r == s
      else c in r.procs && r.procs[c] == s.procs[c].(state := Waiting) && r.current != c && OthersAsBefore(s, r, {c})
  {
    hide Dispatch;
    NonNull(s);
    if s.current != 0 && s.procs[s.current].children != 0 {
      GivesUp(s, s.procs[s.current].(state := Waiting));
    }
  }

  lemma NonNull(s: Table)
    requires WellFormed(s)
    ensures 0 !in s.procs && (s.current != 0 ==> s.current in s.procs)
  {
  }

  /** blockIO: a live caller is BLOCKEDIO, loses its ticks and gives up the processor. */
  lemma BlockIOEffect(s: Table)
    requires WellFormed(s) && s.current != IDLE
    ensures
      var c, r := s.current, BlockIO(s);
      if c == 0 || s.procs[c].state.Dead? then r == s
      else
        && c in r.procs && r.procs[c] == s.procs[c].(state := BlockedIO, executions := 0)
        && r.current != c && OthersAsBefore(s, r, {c})
  {
    hide Dispatch;
    NonNull(s);
    if s.current != 0 && !s.procs[s.current].state.Dead? {
      GivesUp(s, s.procs[s.current].(state := BlockedIO, executions := 0));
    }
  }

  /** quitCPU: a READY caller starts its ticks anew and stands behind every other READY process. */
  lemma QuitCPUEffect(s: Table)
    requires WellFormed(s) && s.current != IDLE && (s.current != 0 ==> s.procs[s.current].state.Ready?)
    ensures
      var c, r := s.current, QuitCPU(s);
      if c == 0 then r == s
      else
        && c in r.procs && Ticked(s.procs[c].(executions := 0), r.procs[c], c == r.current) && OthersAsBefore(s, r, {c})
        && (r.current == c ==> forall y :: y in s.procs && y != c ==> !s.procs[y].state.Ready?)
  {
    hide Dispatch;
    NonNull(s);
    if s.current != 0 {
      var p := s.procs[s.current].(executions := Quantum(s.procs[s.current]));
      EndsQuantum(s, p);
      var u := s.(procs := s.procs[s.current := p]);
      if Dispatch(u).current == s.current { LastOfAll(u); }
    }
  }

  /** A process that used up its quantum is picked again only if nobody else is READY. */
  lemma LastOfAll(u: Table)
    requires WellFormed(u) && u.current in u.procs && u.procs[u.current].state.Ready?
    requires u.procs[u.current].executions == 40 - u.procs[u.current].priority && Dispatch(u).current == u.current
    ensures forall y :: y in u.procs && y != u.current ==> !u.procs[y].state.Ready?
  {
    hide Dispatch, WellFormed, Without, Reaped;
    var i, d := DispatchFollowsNext(u);
    ListFacts(u);
    var n := |u.order|;
    assert u.order[After(n, i, n - 1)] == u.current;
    assert ReadyAt(u, After(n, i, n - 1));
    assert d == n - 1;
    forall y | y in u.procs && y != u.current ensures !u.procs[y].state.Ready? {
      var j := IndexOf(u.order, y);
      var e := if j >= i then j - i else j + n - i;
      assert After(n, i, e) == j;
      assert e < d;
    }
  }

  lemma ListFacts(s: Table)
    requires WellFormed(s)
    ensures Distinct(s.order) && forall x :: x in s.order <==> x in s.procs
  {
  }

  /** nice: for offsets from -20 to 19 the target gets 20 - offset ticks per turn, and nothing else changes. */
  lemma NiceEffect(s: Table, pid: int, offset: int)
    ensures
      var r := Nice(s, pid, offset);
      if -20 <= offset < 20 && pid in s.procs then
        && OnlyRecords(s, r, {pid}) && r.procs[pid] == s.procs[pid].(priority := r.procs[pid].priority)
        && Quantum(r.procs[pid]) == 20 - offset && 0 <= r.procs[pid].priority < 40
      else r == s
  {
  }

  /** unblockIO: exactly the processes blocked on input become READY. */
  lemma UnblockIOEffect(s: Table)
    ensures
      var r := UnblockIO(s);
      && OnlyRecords(s, r, s.procs.Keys)
      && forall x :: x in s.procs ==>
           r.procs[x] == if s.procs[x].state.BlockedIO? then s.procs[x].(state := Ready) else s.procs[x]
  {
  }

  /** enqueueProcess: the new process is last, READY, has run 0 ticks of the 40 (foreground) or 20 it gets,
      and is counted by the caller; idle is put to sleep if it was not to run. */
  lemma SpawnEffect(s: Table, foreground: bool)
    requires WellFormed(s) && s.current != IDLE
    ensures
      var r, born := Spawn(s, foreground), s.nextPid;
      && born !in s.procs && r.order == s.order + [born] && r.nextPid == born + 1
      && r.current == s.current && r.idleFlag == s.idleFlag && r.procs.Keys == s.procs.Keys + {born}
      && r.procs[born].ppid == s.current && r.procs[born].executions == 0 && r.procs[born].state.Ready?
      && r.procs[born].children == 0 && Quantum(r.procs[born]) == (if foreground then 40 else 20)
      && (s.current != 0 ==> r.procs[s.current] == s.procs[s.current].(children := s.procs[s.current].children + 1))
      && (forall x :: x in s.procs && x != s.current && x != IDLE ==> r.procs[x] == s.procs[x])
      && r.procs[IDLE] == if s.idleFlag == 0 then s.procs[IDLE].(state := Blocked) else s.procs[IDLE]
  {
  }

  /** initScheduler: idle alone, READY, with one tick per turn. */
  lemma BootEffect()
    ensures
      var s := Boot();
      && s.order == [1] && s.procs.Keys == {1} && s.procs[1].state.Ready? && Quantum(s.procs[1]) == 1
      && s.procs[1].executions == 0 && s.current == 0 && s.idleFlag != 0 && s.nextPid == 2
  {
  }

  /** The parent's record when a child dies: one child less, and READY if it waited for the last one. */
  function Bereaved(p: Proc): Proc {
    p.(children := p.children - 1, state := if p.children == 1 && p.state.Waiting? then Ready else p.state)
  }

  lemma BuryEffect(m: map<int, Proc>, pid: int)
    requires pid in m
    ensures
      var r, ppid := Bury(m, pid), m[pid].ppid;
      && r.Keys == m.Keys && r[pid].state.Dead?
      && (ppid in m && ppid != pid ==> r[ppid] == Bereaved(m[ppid]))
      && forall x :: x in m && x != pid && x != ppid ==> r[x] == m[x]
  {
  }

  /** kill: a listed target is DEAD, or already off the list, and not running; its parent loses a child;
      nothing else changes but the switch if it was the caller. */
  lemma KillEffect(s: Table, pid: int)
    requires WellFormed(s) && pid != IDLE
    ensures
      var r := Kill(s, pid);
      if pid !in s.procs then r == s
      else
        var ppid := s.procs[pid].ppid;
        && (pid in r.procs ==> r.procs[pid].state.Dead?)
        && (pid == s.current ==> r.current != pid && OthersAsBefore(s, r, {pid, ppid}))
        && (pid != s.current ==> pid in r.procs && OnlyRecords(s, r, {pid, ppid}))
        && (ppid in s.procs && ppid != pid && ppid != IDLE && ppid in r.procs ==>
              Ticked(Bereaved(s.procs[ppid]), r.procs[ppid], pid == s.current && ppid == r.current))
        && (ppid in s.procs && ppid != pid && ppid !in r.procs ==> s.procs[ppid].state.Dead?)
  {
    hide Dispatch, Chosen, Bury, Bereaved;
    if pid in s.procs {
      BuryEffect(s.procs, pid);
      BereavedState(s.procs);
      if pid == s.current {
        var u := s.(procs := Bury(s.procs, pid));
        DispatchEffect(u);
      }
    }
  }

  lemma BereavedState(m: map<int, Proc>)
    ensures forall x :: x in m ==> (Bereaved(m[x]).state.Dead? <==> m[x].state.Dead?)
  {
  }

  /** unblockFirst by a running READY process: the target is READY, stands right behind the caller on the
      list, and runs; the caller starts its ticks anew. */
  lemma UnblockFirstEffect(s: Table, pid: int)
    requires WellFormed(s) && s.current in s.procs && s.current != IDLE && pid != s.current && pid != IDLE
    requires s.procs[s.current].state.Ready?
    ensures
      var c, r := s.current, UnblockFirst(s, pid);
      if pid !in s.procs || s.procs[pid].state.Dead? then r == s
      else
        && r.current == pid && pid in r.procs && c in r.procs
        && r.procs[pid] == s.procs[pid].(state := Ready, executions := Inc(s.procs[pid].executions))
        && r.procs[c] == s.procs[c].(executions := 0) && OthersAsBefore(s, r, {c, pid})
  {
    hide Dispatch, Chosen, MoveAfter, Without, Distinct;
    if pid in s.procs && !s.procs[pid].state.Dead? {
      Handoff(s, pid);
      DispatchEffect(Promote(s, pid));
    }
  }

  // ---- who is on the list --------------------------------------------------------------------

  predicate Lives(s: Table, x: int) { x in s.procs && !s.procs[x].state.Dead? }

  /** Among the processes there are already, the same ones live. */
  ghost predicate SameLives(s: Table, r: Table) {
    && s.nextPid <= r.nextPid && forall x :: x < s.nextPid ==> (Lives(r, x) <==> Lives(s, x))
  }

  lemma DispatchLives(s: Table)
    requires WellFormed(s)
    ensures SameLives(s, Dispatch(s))
  {
    hide Dispatch, Chosen;
    DispatchEffect(s);
  }
}
