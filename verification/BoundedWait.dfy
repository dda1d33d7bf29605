/** Timer ticks alone: how long a READY process waits for the processor and how long it keeps it
    (Kernel/utils/scheduler.c, nextProcess). */
module BoundedWait {
  import opened Rotation
  import opened Sched
  import opened SchedWalk
  import opened SchedInvariants
  import opened SchedEffects

  /** The list from the running process on. */
  function View(s: Table): seq<int> { Rot(s.order, s.current) }

  predicate Counts(m: map<int, Proc>, x: int) { x in m && m[x].state.Ready? && x != IDLE }

  /** Ticks x still has coming before it must give way. */
  function Left(m: map<int, Proc>, x: int): int {
    if Counts(m, x) then Quantum(m[x]) - m[x].executions else 0
  }

  function SumLeft(q: seq<int>, m: map<int, Proc>): int {
    if q == [] then 0 else Left(m, q[0]) + SumLeft(q[1..], m)
  }

  /** Tick at which p runs: everybody in front of it uses up what it has left. */
  function TicksUntil(s: Table, p: int): int
    requires p in s.order
  {
    RotMember(s.order, s.current, p);
    SumLeft(View(s)[..IndexOf(View(s), p)], s.procs) + 1
  }

  /** Priorities are in range, READY processes that are not running start from zero, and the running
      one is within its quantum. */
  ghost predicate Fresh(s: Table) {
    && WellFormed(s) && IdleRests(s) && s.current != 0
    && forall x :: x in s.procs && x != IDLE ==> FreshProc(s, x)
  }

  ghost predicate FreshProc(s: Table, x: int)
    requires x in s.procs
  {
    var p := s.procs[x];
    && 0 <= p.priority < MAX_PRIORITY
    && (p.state.Ready? ==> if x == s.current then 0 <= p.executions <= Quantum(p) else p.executions == 0)
  }

  lemma {:induction false} SumConcat(a: seq<int>, b: seq<int>, m: map<int, Proc>)
    ensures SumLeft(a + b, m) == SumLeft(a, m) + SumLeft(b, m)
  {
    if a == [] {
      assert a + b == b;
    } else {
      assert (a + b)[1..] == a[1..] + b;
      SumConcat(a[1..], b, m);
    }
  }

  lemma {:induction false} SumSame(q: seq<int>, m: map<int, Proc>, n: map<int, Proc>)
    requires forall x :: x in q ==> Left(m, x) == Left(n, x)
    ensures SumLeft(q, m) == SumLeft(q, n)
  {
    if q != [] { SumSame(q[1..], m, n); }
  }

  lemma {:induction false} SumZero(q: seq<int>, m: map<int, Proc>)
    requires forall x :: x in q ==> Left(m, x) == 0
    ensures SumLeft(q, m) == 0
  {
    if q != [] { SumZero(q[1..], m); }
  }

  lemma {:induction false} SumNonNegative(q: seq<int>, m: map<int, Proc>)
    requires forall x :: x in q ==> Left(m, x) >= 0
    ensures SumLeft(q, m) >= 0
  {
    if q != [] { SumNonNegative(q[1..], m); }
  }

  // ---- where the ring stands after a tick -------------------------------------------------

  /** The state of the first lap just before it looks at q[k]. */
  lemma {:induction false} WalkTo(s: Table, k: nat) returns (firstBlocked: int)
    requires WellFormed(s) && k < |Ring(s)| && k <= FirstReady(Ring(s), StartProcs(s))
    ensures
      var q, m := Ring(s), StartProcs(s);
      LapOne(s, q, m, k, Without(s.order, DeadIn(q[..k], m)), m - DeadIn(q[..k], m), q[k], firstBlocked)
    decreases k
  {
    hide Without, Rot, Ring, StartProcs, StartAt, Next, DeadIn, RemoveOne, WellFormed, IsReady;
    var q, m := Ring(s), StartProcs(s);
    if k == 0 {
      LapStart(s);
      firstBlocked := Settle(s, q, m, 0, s.order, m, StartAt(s), 0);
    } else {
      var f := WalkTo(s, k - 1);
      var o, n, c := Without(s.order, DeadIn(q[..k - 1], m)), m - DeadIn(q[..k - 1], m), q[k - 1];
      NotZero(s, q, m, k - 1, o, n, c, f);
      if IsDead(m, c) {
        BothThere(s, q, m, k - 1, o, n, c, f);
        LapReap(s, q, m, k - 1, o, n, c, f);
        firstBlocked := Settle(s, q, m, k, RemoveOne(o, c), n - {c}, Next(o, c), f);
      } else {
        LapSkip(s, q, m, k - 1, o, n, c, f);
        firstBlocked := Settle(s, q, m, k, o, n, Next(o, c), if f == 0 then c else f);
      }
    }
  }

  lemma NotZero(s: Table, q: seq<int>, m: map<int, Proc>, k: nat, order: seq<int>, procs: map<int, Proc>, cur: int, f: int)
    requires LapOne(s, q, m, k, order, procs, cur, f) && k < |q| && cur == q[k]
    ensures cur != 0
  {
    assert q[k] in q[k..] + Without(q[..k], DeadIn(q, m));
    RotMember(order, cur, cur);
  }

  lemma BothThere(s: Table, q: seq<int>, m: map<int, Proc>, k: nat, order: seq<int>, procs: map<int, Proc>, cur: int, f: int)
    requires WellFormed(s) && m == StartProcs(s) && LapOne(s, q, m, k, order, procs, cur, f) && cur != 0 && IsDead(m, cur)
    ensures |order| > 1
  {
    hide Rot, StartAt, IsReady;
    StartKeys(s);
    WithoutMember(s.order, DeadIn(q[..k], m), IDLE);
    assert IDLE in order && cur in order && cur != IDLE;
  }

  // NULL stands for the head of the list.
  lemma Settle(s: Table, q: seq<int>, m: map<int, Proc>, k: nat,
               order: seq<int>, procs: map<int, Proc>, cur: int, f: int) returns (firstBlocked: int)
    requires LapOne(s, q, m, k, order, procs, cur, f) && k < |q|
    ensures order == Without(s.order, DeadIn(q[..k], m)) && procs == m - DeadIn(q[..k], m)
    ensures LapOne(s, q, m, k, order, procs, q[k], firstBlocked)
  {
    firstBlocked := f;
    if cur == 0 {
      LapWrap(s, q, m, k, order, procs, f);
      assert order[0] in order;
      LapFront(s, q, m, k, order, procs, order[0], f);
    } else {
      LapFront(s, q, m, k, order, procs, cur, f);
    }
  }

  /** After a tick that picks q[k], the ring starts at q[k]. */
  lemma ViewAfter(s: Table)
    requires WellFormed(s) && FirstReady(Ring(s), StartProcs(s)) < |Ring(s)|
    ensures
      var q, m := Ring(s), StartProcs(s);
      var k := FirstReady(q, m);
      View(Dispatch(s)) == q[k..] + Without(q[..k], DeadIn(q, m))
  {
    hide Without, Rot, Ring, StartProcs, StartAt, DeadIn, WellFormed, FirstReady;
    var k := FirstReady(Ring(s), StartProcs(s));
    var f := WalkTo(s, k);
    DispatchOrder(s);
  }

  lemma DispatchOrder(s: Table)
    requires FirstReady(Ring(s), StartProcs(s)) < |Ring(s)|
    ensures
      var q, m := Ring(s), StartProcs(s);
      var k := FirstReady(q, m);
      Dispatch(s).order == Without(s.order, DeadIn(q[..k], m)) && Dispatch(s).current == q[k]
  {
  }

  // ---- one tick ----------------------------------------------------------------------------

  /** The running process has ticks left. */
  predicate Running(s: Table) {
    s.current in s.procs && s.procs[s.current].state.Ready? && s.procs[s.current].executions != Quantum(s.procs[s.current])
  }

  lemma FreshAfter(s: Table)
    requires Fresh(s)
    ensures Fresh(Dispatch(s))
    ensures forall x :: x in s.procs && x != IDLE && !s.procs[x].state.Dead? ==>
      x in Dispatch(s).procs && Dispatch(s).procs[x].state == s.procs[x].state && Dispatch(s).procs[x].priority == s.procs[x].priority
  {
    hide Dispatch, WellFormed;
    DispatchKeeps(s);
    IdleDispatch(s);
    DispatchEffect(s);
    StaysIfRunning(s);
    var r := Dispatch(s);
    forall x | x in r.procs && x != IDLE ensures FreshProc(r, x) {
      assert FreshProc(s, x) && RecordAfter(s, Chosen(s), x, r.procs[x]);
    }
    forall x | x in s.procs && x != IDLE && !s.procs[x].state.Dead?
      ensures x in r.procs && r.procs[x].state == s.procs[x].state && r.procs[x].priority == s.procs[x].priority
    {
      assert RecordAfter(s, Chosen(s), x, r.procs[x]);
    }
    NonZero(s);
  }

  lemma NonZero(s: Table)
    requires WellFormed(s)
    ensures 0 !in s.procs
  {
  }

  /** A process with ticks left keeps the processor. */
  lemma StaysIfRunning(s: Table)
    requires WellFormed(s) && s.current != 0
    ensures Running(s) ==> Chosen(s) == s.current && Dispatch(s).order == s.order && Dispatch(s).current == s.current
    ensures Running(s) ==> Dispatch(s).procs[s.current].executions == Inc(s.procs[s.current].executions)
  {
    if Running(s) {
      RotHead(s.order, s.current);
      var q := Ring(s);
      assert FirstReady(q, StartProcs(s)) == 0;
      assert q[..0] == [] && DeadIn(q[..0], s.procs) == {};
      WithoutNone(s.order);
      DispatchEffect(s);
      assert RecordAfter(s, Chosen(s), s.current, Dispatch(s).procs[s.current]);
    }
  }

  lemma LeftFacts(s: Table, x: int)
    requires Fresh(s) && x in s.procs
    ensures Left(s.procs, x) >= 0
    ensures x != s.current && Counts(s.procs, x) ==> Left(s.procs, x) == Quantum(s.procs[x]) >= 1
    ensures x == s.current ==> (Left(s.procs, x) == 0 <==> !Running(s) || x == IDLE)
  {
    if x != IDLE { assert FreshProc(s, x); }
  }

  /** Left of a process the tick does not touch is unchanged. */
  lemma LeftSame(s: Table, x: int)
    requires Fresh(s) && x in s.procs && x != Dispatch(s).current && x != s.current
    ensures Left(Dispatch(s).procs, x) == Left(s.procs, x)
  {
    hide Dispatch, WellFormed, Inc;
    FreshAfter(s);
    DispatchEffect(s);
    var r := Dispatch(s);
    if x in r.procs { assert RecordAfter(s, Chosen(s), x, r.procs[x]); }
  }

  /** While the running process has ticks left, each tick brings p one tick closer. */
  lemma CountdownRunning(s: Table, p: int)
    requires Fresh(s) && Counts(s.procs, p) && p != s.current && Running(s)
    ensures p in s.order && p in Dispatch(s).order
    ensures Dispatch(s).current == s.current && TicksUntil(s, p) > 1 && TicksUntil(Dispatch(s), p) == TicksUntil(s, p) - 1
  {
    hide Dispatch, Rot, IndexOf, Distinct;
    StaysIfRunning(s);
    var r := Dispatch(s);
    var v := View(s);
    NotIdle(s);
    RotMember(s.order, s.current, p);
    RotHead(s.order, s.current);
    var i := IndexOf(v, p);
    var a := v[1..i];
    assert v[..i] == [s.current] + a;
    RotDistinct(s.order, s.current);
    ViewMembers(s);
    Apart(v, i);
    forall x | x in a ensures Left(r.procs, x) == Left(s.procs, x) { LeftSame(s, x); }
    SumSame(a, s.procs, r.procs);
    FirstOfSum(s.current, a, s.procs);
    FirstOfSum(s.current, a, r.procs);
    OneLess(s);
    forall x | x in a ensures Left(s.procs, x) >= 0 { LeftFacts(s, x); }
    SumNonNegative(a, s.procs);
  }

  lemma Apart(v: seq<int>, i: nat)
    requires Distinct(v) && 0 < i < |v|
    ensures forall x :: x in v[1..i] ==> x != v[0]
    ensures forall x :: x in v[1..i] ==> x in v
  {
  }

  lemma ViewMembers(s: Table)
    requires WellFormed(s)
    ensures forall x :: x in View(s) <==> x in s.procs
  {
    forall x ensures x in View(s) <==> x in s.order { RotMember(s.order, s.current, x); }
  }

  lemma FirstOfSum(x: int, a: seq<int>, m: map<int, Proc>)
    ensures SumLeft([x] + a, m) == Left(m, x) + SumLeft(a, m)
  {
    assert ([x] + a)[1..] == a;
  }

  lemma NotIdle(s: Table)
    requires Fresh(s) && Running(s)
    ensures s.current != IDLE
  {
  }

  lemma OneLess(s: Table)
    requires Fresh(s) && Running(s)
    ensures Left(Dispatch(s).procs, s.current) == Left(s.procs, s.current) - 1 && Left(s.procs, s.current) >= 1
  {
    hide Dispatch;
    NotIdle(s);
    StaysIfRunning(s);
    DispatchEffect(s);
    assert FreshProc(s, s.current);
    assert RecordAfter(s, Chosen(s), s.current, Dispatch(s).procs[s.current]);
  }

  /** When the running process gives way, p stands in the new ring behind exactly the same work. */
  lemma PlaceInRing(s: Table, p: int) returns (j: nat)
    requires Fresh(s) && Counts(s.procs, p) && p != s.current && !Running(s)
    ensures p in s.order && j < |Ring(s)| && Ring(s)[j] == p
    ensures SumLeft(Ring(s)[..j], s.procs) == TicksUntil(s, p) - 1
    ensures forall x :: x in Ring(s)[..j] && Counts(s.procs, x) ==> x != s.current
  {
    hide Rot, IndexOf, Distinct, Next;
    var v, q := View(s), Ring(s);
    RotMember(s.order, s.current, p);
    RotHead(s.order, s.current);
    RotDistinct(s.order, s.current);
    var i := IndexOf(v, p);
    Apart(v, i);
    LeftFacts(s, s.current);
    if Expired(s) {
      RotAdvance(s.order, s.current);
      assert q == v[1..] + [s.current];
      j := i - 1;
      assert q[..j] == v[1..i];
      assert v[..i] == [s.current] + v[1..i];
      FirstOfSum(s.current, v[1..i], s.procs);
    } else {
      j := i;
      assert q == v;
    }
  }

  /** Everything the walk passes over before the process it picks has nothing left to run. */
  lemma NothingBefore(s: Table, j: nat)
    requires Fresh(s) && j < |Ring(s)| && Counts(s.procs, Ring(s)[j])
    ensures
      var q := Ring(s);
      var k := FirstReady(q, StartProcs(s));
      && k <= j && SumLeft(q[..k], s.procs) == 0 && SumLeft(q[..j], s.procs) == SumLeft(q[k..j], s.procs)
  {
    hide Rot, Ring, StartAt, WellFormed, Quantum;
    var q, m := Ring(s), StartProcs(s);
    var k := FirstReady(q, m);
    StartRecords(s);
    assert IsReady(m, q[j]);
    forall x | x in q[..k] ensures Left(s.procs, x) == 0 {
      var i :| 0 <= i < k && q[..k][i] == x;
      assert !IsReady(m, q[i]);
    }
    SumZero(q[..k], s.procs);
    assert q[..j] == q[..k] + q[k..j];
    SumConcat(q[..k], q[k..j], s.procs);
  }

  /** Somebody other than idle is READY, so idle is not picked. */
  lemma PicksWorker(s: Table, j: nat)
    requires Fresh(s) && !Running(s) && j < |Ring(s)| && Counts(s.procs, Ring(s)[j])
    ensures FirstReady(Ring(s), StartProcs(s)) <= j
    ensures Chosen(s) == Ring(s)[FirstReady(Ring(s), StartProcs(s))] && Counts(s.procs, Chosen(s))
  {
    hide Rot, Next, Distinct, Ring, StartAt;
    NothingBefore(s, j);
    DispatchEffect(s);
    if Chosen(s) == IDLE { IdleMeansNobody(s); }
  }

  /** When the running process gives way, p is picked if nothing is left in front of it, and comes
      one tick closer otherwise. */
  lemma CountdownSwitch(s: Table, p: int)
    requires Fresh(s) && Counts(s.procs, p) && p != s.current && !Running(s)
    ensures p in s.order && p in Dispatch(s).order
    ensures TicksUntil(s, p) == 1 ==> Dispatch(s).current == p && Dispatch(s).procs[p].executions == 1
    ensures TicksUntil(s, p) != 1 ==>
      TicksUntil(s, p) > 1 && Dispatch(s).current != p && TicksUntil(Dispatch(s), p) == TicksUntil(s, p) - 1
  {
    hide Dispatch, Rot, IndexOf, Distinct, Ring, StartAt, StartProcs, FirstReady, WellFormed, Without;
    var q := Ring(s);
    var k := FirstReady(q, StartProcs(s));
    var j := PlaceInRing(s, p);
    NothingBefore(s, j);
    PicksWorker(s, j);
    Survives(s, p);
    DispatchKeeps(s);
    var c := q[k];
    assert k < j ==> c == q[..j][k];
    PickedLeft(s, c);
    if k == j {
      assert q[k..j] == [];
    } else {
      assert q[k..j] == [c] + q[k + 1..j];
      FirstOfSum(c, q[k + 1..j], s.procs);
      BehindPicked(s, p, j, k);
    }
  }

  lemma Survives(s: Table, p: int)
    requires Fresh(s) && Counts(s.procs, p)
    ensures p in Dispatch(s).order && Counts(Dispatch(s).procs, p) && Fresh(Dispatch(s))
  {
    FreshAfter(s);
  }

  /** The picked process had a whole quantum and has used one tick of it. */
  lemma PickedLeft(s: Table, c: int)
    requires Fresh(s) && c == Chosen(s) && Counts(s.procs, c) && c != s.current
    ensures Left(s.procs, c) == Quantum(s.procs[c]) >= 1
    ensures Left(Dispatch(s).procs, c) == Quantum(s.procs[c]) - 1 && Dispatch(s).procs[c].executions == 1
  {
    hide Dispatch, Rot, Ring, StartAt, StartProcs, FirstReady;
    LeftFacts(s, c);
    FreshAfter(s);
    DispatchEffect(s);
    assert FreshProc(s, c);
    assert RecordAfter(s, Chosen(s), c, Dispatch(s).procs[c]);
  }

  lemma BehindPicked(s: Table, p: int, j: nat, k: nat)
    requires Fresh(s) && Counts(s.procs, p) && p != s.current && !Running(s)
    requires k == FirstReady(Ring(s), StartProcs(s)) < j < |Ring(s)| && Ring(s)[j] == p && Counts(s.procs, Ring(s)[k])
    requires p in Dispatch(s).order && Chosen(s) == Ring(s)[k]
    requires forall x :: x in Ring(s)[..j] && Counts(s.procs, x) ==> x != s.current
    requires Left(Dispatch(s).procs, Ring(s)[k]) == Left(s.procs, Ring(s)[k]) - 1
    ensures Dispatch(s).current != p
    ensures TicksUntil(Dispatch(s), p) == SumLeft(Ring(s)[k..j], s.procs)
    ensures SumLeft(Ring(s)[k..j], s.procs) >= 1
  {
    hide Dispatch, Rot, IndexOf, Ring, StartAt, StartProcs, FirstReady, WellFormed, Without;
    var q, r := Ring(s), Dispatch(s);
    DispatchKeeps(s);
    ViewAfter(s);
    RingDistinct(s);
    var v := View(r);
    DispatchDistinct(s);
    assert v[j - k] == p;
    IndexUnique(v, j - k);
    RotMember(r.order, r.current, p);
    assert v[..j - k] == q[k..j];
    var a := q[k + 1..j];
    assert q[k..j] == [q[k]] + a;
    FirstOfSum(q[k], a, s.procs);
    FirstOfSum(q[k], a, r.procs);
    forall x | x in a ensures Left(r.procs, x) == Left(s.procs, x) && Left(s.procs, x) >= 0 {
      var i :| 0 <= i < |a| && a[i] == x;
      assert q[k + 1 + i] == x && x in q[..j];
      LeftFacts(s, x);
      LeftInRing(s, x);
    }
    SumSame(a, s.procs, r.procs);
    SumNonNegative(a, s.procs);
    LeftFacts(s, q[k]);
  }

  lemma LeftInRing(s: Table, x: int)
    requires Fresh(s) && x in s.procs && x != Dispatch(s).current && (Counts(s.procs, x) ==> x != s.current)
    ensures Left(Dispatch(s).procs, x) == Left(s.procs, x)
  {
    hide Dispatch, WellFormed, Inc;
    FreshAfter(s);
    DispatchEffect(s);
    var r := Dispatch(s);
    if x in r.procs { assert RecordAfter(s, Chosen(s), x, r.procs[x]); }
  }

  lemma RingDistinct(s: Table)
    requires WellFormed(s)
    ensures Distinct(Ring(s)) && forall x :: x in Ring(s) ==> x in s.procs
  {
    RotDistinct(s.order, StartAt(s));
    RingKeys(s);
    StartFacts(s);
  }

  lemma DispatchDistinct(s: Table)
    requires WellFormed(s)
    ensures Distinct(View(Dispatch(s)))
  {
    hide Dispatch;
    DispatchKeeps(s);
    RotDistinct(Dispatch(s).order, Dispatch(s).current);
  }

  // ---- runs of ticks -----------------------------------------------------------------------

  ghost function Ticks(s: Table, n: nat): Table {
    if n == 0 then s else Dispatch(Ticks(s, n - 1))
  }

  lemma {:induction false} TicksFront(s: Table, n: nat)
    ensures Ticks(s, n + 1) == Ticks(Dispatch(s), n)
    decreases n
  {
    hide Dispatch;
    if n > 0 { TicksFront(s, n - 1); }
  }

  /** One tick, whoever is running. */
  lemma Countdown(s: Table, p: int)
    requires Fresh(s) && Counts(s.procs, p) && p != s.current
    ensures p in s.order && p in Dispatch(s).order && Fresh(Dispatch(s)) && Counts(Dispatch(s).procs, p)
    ensures TicksUntil(s, p) == 1 ==> Dispatch(s).current == p && Dispatch(s).procs[p].executions == 1
    ensures TicksUntil(s, p) != 1 ==>
      TicksUntil(s, p) > 1 && Dispatch(s).current != p && TicksUntil(Dispatch(s), p) == TicksUntil(s, p) - 1
  {
    hide Dispatch, TicksUntil, Fresh, Running;
    Survives(s, p);
    if Running(s) { CountdownRunning(s, p); } else { CountdownSwitch(s, p); }
  }

  /** A waiting READY process is dispatched at exactly tick TicksUntil, and not before. */
  lemma {:induction false} DispatchedExactlyThen(s: Table, p: int, n: nat)
    requires Fresh(s) && Counts(s.procs, p) && p != s.current && p in s.order && n == TicksUntil(s, p)
    ensures n >= 1 && Ticks(s, n).current == p && p in Ticks(s, n).procs && Ticks(s, n).procs[p].executions == 1
    ensures forall i :: 0 <= i < n ==> Ticks(s, i).current != p
    decreases n
  {
    hide Dispatch, TicksUntil, Fresh;
    Countdown(s, p);
    TicksFront(s, n - 1);
    if n > 1 {
      DispatchedExactlyThen(Dispatch(s), p, n - 1);
      forall i | 0 <= i < n ensures Ticks(s, i).current != p {
        if i > 0 { TicksFront(s, i - 1); }
      }
    } else {
      assert Ticks(Dispatch(s), 0) == Dispatch(s);
      assert Ticks(s, 0) == s;
    }
  }

  /** Quanta of the READY processes of q other than p and idle. */
  function OtherQuanta(q: seq<int>, m: map<int, Proc>, p: int): int {
    if q == [] then 0
    else (if Counts(m, q[0]) && q[0] != p then Quantum(m[q[0]]) else 0) + OtherQuanta(q[1..], m, p)
  }

  lemma {:induction false} OtherConcat(a: seq<int>, b: seq<int>, m: map<int, Proc>, p: int)
    ensures OtherQuanta(a + b, m, p) == OtherQuanta(a, m, p) + OtherQuanta(b, m, p)
  {
    if a == [] {
      assert a + b == b;
    } else {
      assert (a + b)[1..] == a[1..] + b;
      OtherConcat(a[1..], b, m, p);
    }
  }

  lemma {:induction false} AtMostQuanta(q: seq<int>, s: Table, p: int)
    requires Fresh(s) && p !in q && forall x :: x in q ==> x in s.procs
    ensures 0 <= SumLeft(q, s.procs) <= OtherQuanta(q, s.procs, p)
  {
    hide Fresh;
    if q != [] {
      AtMostQuanta(q[1..], s, p);
      LeftAtMost(s, q[0]);
    }
  }

  lemma LeftAtMost(s: Table, x: int)
    requires Fresh(s) && x in s.procs
    ensures 0 <= Left(s.procs, x) && (Counts(s.procs, x) ==> Left(s.procs, x) <= Quantum(s.procs[x]))
  {
    if x != IDLE { assert FreshProc(s, x); }
  }

  lemma {:induction false} OtherNonNegative(q: seq<int>, s: Table, p: int)
    requires Fresh(s)
    ensures OtherQuanta(q, s.procs, p) >= 0
  {
    hide Fresh;
    if q != [] {
      OtherNonNegative(q[1..], s, p);
      if q[0] in s.procs { LeftAtMost(s, q[0]); }
    }
  }

  /** The wait is bounded by the quanta of the other READY processes, plus one. */
  lemma WaitIsBounded(s: Table, p: int)
    requires Fresh(s) && Counts(s.procs, p) && p != s.current && p in s.order
    ensures TicksUntil(s, p) <= OtherQuanta(s.order, s.procs, p) + 1
  {
    hide Fresh, IndexOf, Distinct;
    var v := View(s);
    RotMember(s.order, s.current, p);
    var i := IndexOf(v, p);
    InView(s);
    assert v == v[..i] + v[i..];
    OtherConcat(v[..i], v[i..], s.procs, p);
    OtherNonNegative(v[i..], s, p);
    AtMostQuanta(v[..i], s, p);
    if s.current in s.order {
      var c := IndexOf(s.order, s.current);
      assert s.order == s.order[..c] + s.order[c..];
      OtherConcat(s.order[..c], s.order[c..], s.procs, p);
      OtherConcat(s.order[c..], s.order[..c], s.procs, p);
    }
  }

  lemma InView(s: Table)
    requires Fresh(s)
    ensures forall x :: x in View(s) ==> x in s.procs
  {
    ViewMembers(s);
  }

  /** Once dispatched, a process keeps the processor for exactly its quantum. */
  lemma {:induction false} KeepsItsQuantum(s: Table, p: int, n: nat)
    requires Fresh(s) && s.current == p && Counts(s.procs, p) && s.procs[p].executions == 1
    requires n < Quantum(s.procs[p])
    ensures
      var t := Ticks(s, n);
      && Fresh(t) && t.current == p && Counts(t.procs, p)
      && t.procs[p].executions == 1 + n && t.procs[p].priority == s.procs[p].priority
      && forall x :: Counts(s.procs, x) ==> Counts(t.procs, x)
    decreases n
  {
    hide Dispatch, Fresh;
    if n > 0 {
      KeepsItsQuantum(s, p, n - 1);
      var t := Ticks(s, n - 1);
      SmallQuantum(t, p);
      Stays(t);
      forall x | Counts(s.procs, x) ensures Counts(Ticks(s, n).procs, x) { Survives(t, x); }
    }
  }

  lemma SmallQuantum(s: Table, p: int)
    requires Fresh(s) && Counts(s.procs, p)
    ensures 1 <= Quantum(s.procs[p]) <= MAX_PRIORITY
  {
    assert FreshProc(s, p);
  }

  lemma Stays(s: Table)
    requires Fresh(s) && Running(s) && s.current != IDLE && s.procs[s.current].executions < 127
    ensures Fresh(Dispatch(s)) && Dispatch(s).current == s.current
    ensures s.current in Dispatch(s).procs && Dispatch(s).procs[s.current].state.Ready?
    ensures Dispatch(s).procs[s.current].executions == s.procs[s.current].executions + 1
    ensures Dispatch(s).procs[s.current].priority == s.procs[s.current].priority
  {
    hide Dispatch;
    FreshAfter(s);
    StaysIfRunning(s);
  }

  /** ... and then gives way, if any other process is READY. */
  lemma ThenGivesWay(s: Table, p: int, other: int)
    requires Fresh(s) && s.current == p && Counts(s.procs, p) && s.procs[p].executions == 1
    requires Counts(s.procs, other) && other != p
    ensures Ticks(s, Quantum(s.procs[p])).current != p
  {
    hide Dispatch, Fresh, FirstReady;
    SmallQuantum(s, p);
    var n := Quantum(s.procs[p]) - 1;
    KeepsItsQuantum(s, p, n);
    var t := Ticks(s, n);
    LastIsBack(t, other);
  }

  lemma LastIsBack(t: Table, other: int)
    requires Fresh(t) && Expired(t) && Counts(t.procs, other) && other != t.current
    ensures Dispatch(t).current != t.current
  {
    hide Dispatch, Rot, Next, IndexOf, Distinct;
    DispatchKeeps(t);
    var j := PlaceInRing(t, other);
    NothingBefore(t, j);
    PicksWorker(t, j);
    var k := FirstReady(Ring(t), StartProcs(t));
    assert k < j ==> Ring(t)[..j][k] == Ring(t)[k];
  }

  /** A process that has no ticks counted and is unblocked is dispatched, by ticks alone, within the quanta
      of the other READY processes plus one, and not before its turn. */
  lemma UnblockedRunsInTime(s: Table, p: int) returns (n: nat)
    requires Fresh(s) && p in s.procs && !s.procs[p].state.Dead? && p != IDLE && p != s.current && s.procs[p].executions == 0
    ensures
      var u := Unblock(s, p);
      && n <= OtherQuanta(s.order, u.procs, p) + 1 && Ticks(u, n).current == p
      && forall i :: 0 <= i < n ==> Ticks(u, i).current != p
  {
    hide Unblock, WellFormed, IdleRests;
    var u := Unblock(s, p);
    UnblockEffect(s, p);
    UnblockedFresh(s, u, p);
    WaitIsBounded(u, p);
    n := TicksUntil(u, p);
    DispatchedExactlyThen(u, p, n);
  }

  lemma UnblockedFresh(s: Table, u: Table, p: int)
    requires Fresh(s) && p in s.procs && !s.procs[p].state.Dead? && p != IDLE && p != s.current && s.procs[p].executions == 0
    requires OnlyRecords(s, u, {p}) && u.procs[p] == s.procs[p].(state := Ready)
    ensures Fresh(u) && Counts(u.procs, p) && p in u.order && u.order == s.order && TicksUntil(u, p) >= 0
  {
    hide Distinct, TicksUntil;
    forall x | x in u.procs && x != IDLE ensures FreshProc(u, x) { assert FreshProc(s, x); }
    Countdown(u, p);
    TicksPositive(u, p);
  }

  lemma TicksPositive(s: Table, p: int)
    requires Fresh(s) && Counts(s.procs, p) && p != s.current && p in s.order
    ensures TicksUntil(s, p) >= 1
  {
    hide Left;
    InView(s);
    var q := View(s)[..IndexOf(View(s), p)];
    forall x | x in q ensures Left(s.procs, x) >= 0 { LeftFacts(s, x); }
    SumNonNegative(q, s.procs);
  }
}
