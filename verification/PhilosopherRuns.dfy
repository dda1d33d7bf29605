/** Runs of the dining philosophers (Userland/SampleCodeModule/shell/commands/phylo.c), with philosophers
    added at any time. */
module PhilosopherRuns {
  import opened Philosophers

  /** A step of a philosopher, or one of the two link stores of addPhilo. */
  datatype Event = Do(i: nat) | Link | Close

  predicate Possible(w: World, e: Event) {
    match e
    case Do(i) => Enabled(w, i)
    case Link => Sized(w) && !w.joining
    case Close => Sized(w) && w.joining
  }

  function Next(w: World, e: Event): World
    requires Possible(w, e)
  {
    match e
    case Do(i) => Step(w, i)
    case Link => Linked(w)
    case Close => Closed(w)
  }

  /** Exactly when the event leaves nobody unnoticed. */
  ghost predicate Harmless(w: World, e: Event)
    requires Possible(w, e)
  {
    match e
    case Do(i) => !Misses(w, i)
    case Link => LinkHarmless(w)
    case Close => CloseHarmless(w)
  }

  lemma NextSafe(w: World, e: Event)
    requires Safe(w) && Possible(w, e)
    ensures Safe(Next(w, e))
  {
    hide Safe, Step, Linked, Closed;
    match e {
      case Do(i) => StepSafe(w, i);
      case Link => LinkSafe(w);
      case Close => CloseSafe(w);
    }
  }

  /** No wake-up is missed by an event if and only if it is harmless; a step of a philosopher always is
      unless an addition is half done. */
  lemma NextNoticedIff(w: World, e: Event)
    requires Safe(w) && AllNoticed(w) && Possible(w, e)
    ensures Sized(Next(w, e)) && (AllNoticed(Next(w, e)) <==> Harmless(w, e))
    ensures e.Do? && !w.joining ==> Harmless(w, e)
  {
    hide Exclusive, NoClash, JoinOk, TestOk, MoodOk, Step, Linked, Closed, AllNoticed, LinkHarmless, CloseHarmless;
    NextSafe(w, e);
    match e {
      case Do(i) => StepNoticedIff(w, i);
      case Link => LinkNoticedIff(w);
      case Close => CloseNoticedIff(w);
    }
  }

  ghost predicate Run(ws: seq<World>, es: seq<Event>, n: nat) {
    && n > 0 && |ws| == |es| + 1 && ws[0] == Init(n)
    && forall k :: 0 <= k < |es| ==> Possible(ws[k], es[k]) && ws[k + 1] == Next(ws[k], es[k])
  }

  /** Every event so far was harmless. */
  ghost predicate Careful(ws: seq<World>, es: seq<Event>, k: nat) {
    k <= |es| < |ws| && forall j :: 0 <= j < k ==> Possible(ws[j], es[j]) && Harmless(ws[j], es[j])
  }

  lemma {:induction false} Reachable(ws: seq<World>, es: seq<Event>, n: nat, k: nat)
    requires Run(ws, es, n) && k < |ws|
    ensures Safe(ws[k]) && Sized(ws[k])
    decreases k
  {
    hide Exclusive, NoClash, JoinOk, TestOk, MoodOk, Next, Possible;
    if k == 0 {
      InitSafe(n);
    } else {
      Reachable(ws, es, n, k - 1);
      NextSafe(ws[k - 1], es[k - 1]);
    }
  }

  lemma {:induction false} AlwaysNoticed(ws: seq<World>, es: seq<Event>, n: nat, k: nat)
    requires Run(ws, es, n) && Careful(ws, es, k)
    ensures Sized(ws[k]) && AllNoticed(ws[k])
    decreases k
  {
    hide Safe, Next, Possible, Harmless, AllNoticed;
    Reachable(ws, es, n, k);
    if k == 0 {
      NobodyHungry(n);
    } else {
      Reachable(ws, es, n, k - 1);
      AlwaysNoticed(ws, es, n, k - 1);
      NextNoticedIff(ws[k - 1], es[k - 1]);
    }
  }

  lemma NobodyHungry(n: nat)
    requires n > 0
    ensures AllNoticed(Init(n))
  {
  }

  /** With no addition every event is harmless. */
  lemma {:induction false} FixedRingCareful(ws: seq<World>, es: seq<Event>, n: nat, k: nat)
    requires Run(ws, es, n) && k <= |es| && forall j :: 0 <= j < k ==> es[j].Do?
    ensures Careful(ws, es, k) && !ws[k].joining
    decreases k
  {
    hide Safe, AllNoticed, Harmless;
    if k > 0 {
      FixedRingCareful(ws, es, n, k - 1);
      Reachable(ws, es, n, k - 1);
      AlwaysNoticed(ws, es, n, k - 1);
      NextNoticedIff(ws[k - 1], es[k - 1]);
    }
  }

  /** No two distinct neighbours eat at the same time, whatever additions are made and when. */
  lemma NeighboursNeverBothEat(ws: seq<World>, es: seq<Event>, n: nat, k: nat, i: nat)
    requires Run(ws, es, n) && k < |ws| && i < |ws[k].mood|
    ensures RightOf(|ws[k].mood|, i) < |ws[k].mood|
    ensures ws[k].mood[i].Eating? && ws[k].mood[RightOf(|ws[k].mood|, i)].Eating? ==> i == RightOf(|ws[k].mood|, i)
  {
    Reachable(ws, es, n, k);
  }

  /** take_fork returns only while its caller is EATING, and it stays so until put_fork. */
  lemma AtTableMeansEating(ws: seq<World>, es: seq<Event>, n: nat, k: nat, i: nat)
    requires Run(ws, es, n) && k < |ws| && i < |ws[k].pc| && ws[k].pc[i].AtTable?
    ensures |ws[k].mood| == |ws[k].pc| && ws[k].mood[i].Eating?
  {
    Reachable(ws, es, n, k);
    assert MoodOk(ws[k], i);
  }

  /** Whenever nobody is inside the mutex section, every hungry philosopher has an eating neighbour, as
      long as every addition so far was harmless. */
  lemma NoMissedWakeUp(ws: seq<World>, es: seq<Event>, n: nat, k: nat, h: nat)
    requires Run(ws, es, n) && Careful(ws, es, k) && h < |ws[k].mood|
    requires forall i :: 0 <= i < |ws[k].pc| ==> !Inside(ws[k].pc[i])
    ensures Sized(ws[k]) && (ws[k].mood[h].Hungry? ==> EatingNeighbour(ws[k], h))
  {
    AlwaysNoticed(ws, es, n, k);
    assert Noticed(ws[k], h);
  }

  /** In a ring without additions it holds unconditionally. */
  lemma FixedRingWakesUp(ws: seq<World>, es: seq<Event>, n: nat, k: nat, h: nat)
    requires Run(ws, es, n) && k < |ws| && (forall j :: 0 <= j < k ==> es[j].Do?) && h < |ws[k].mood|
    requires forall i :: 0 <= i < |ws[k].pc| ==> !Inside(ws[k].pc[i])
    ensures Sized(ws[k]) && (ws[k].mood[h].Hungry? ==> EatingNeighbour(ws[k], h))
  {
    hide Careful;
    FixedRingCareful(ws, es, n, k);
    NoMissedWakeUp(ws, es, n, k, h);
  }

  /** No such state is stuck: some philosopher can take a step. */
  lemma NeverStuck(ws: seq<World>, es: seq<Event>, n: nat, k: nat) returns (i: nat)
    requires Run(ws, es, n) && Careful(ws, es, k)
    ensures Enabled(ws[k], i)
  {
    Reachable(ws, es, n, k);
    AlwaysNoticed(ws, es, n, k);
    i := SomeoneCanMove(ws[k]);
  }

  lemma SomeoneCanMove(w: World) returns (i: nat)
    requires Safe(w) && AllNoticed(w)
    ensures Enabled(w, i)
  {
    if j :| 0 <= j < |w.pc| && Inside(w.pc[j]) {
      i := j;
      assert TestOk(w, i);
    } else {
      i := 0;
      assert w.mutex == 1;
      assert MoodOk(w, 0) && Noticed(w, 0);
      if w.pc[0].WaitOwn? {
        NoPending(w);
        if w.mood[0].Hungry? {
          i := if w.mood[LeftOf(|w.mood|, w.joining, 0)].Eating? then LeftOf(|w.mood|, w.joining, 0) else RightOf(|w.mood|, 0);
          assert MoodOk(w, i);
        }
      }
    }
  }

  lemma NoPending(w: World)
    requires forall i :: 0 <= i < |w.pc| ==> !Inside(w.pc[i])
    ensures forall t :: !PostPending(w, t)
  {
  }

  // ---- whole calls -------------------------------------------------------------------------------

  /** n steps of philosopher i lead from w to v. */
  ghost predicate Leads(w: World, i: nat, n: nat, v: World)
    decreases n
  {
    if n == 0 then w == v else Enabled(w, i) && Leads(Step(w, i), i, n - 1, v)
  }

  lemma {:induction false} LeadsOn(w: World, i: nat, n: nat, u: World, m: nat, v: World)
    requires Leads(w, i, n, u) && Leads(u, i, m, v)
    ensures Leads(w, i, n + m, v)
    decreases n
  {
    hide Step, Enabled;
    if n > 0 { LeadsOn(Step(w, i), i, n - 1, u, m, v); }
  }

  /** What test(t) is for: a hungry t between two who do not eat eats, and its semaphore is posted. */
  function Tested(w: World, t: nat): World
    requires Sized(w) && t < |w.mood|
  {
    if w.mood[t].Hungry? && !EatingNeighbour(w, t) then w.(mood := w.mood[t := Eating], sem := w.sem[t := w.sem[t] + 1])
    else w
  }

  predicate CanRun(w: World, i: nat) { Sized(w) && i < |w.pc| && !(w.joining && i == |w.pc| - 1) }

  /** The steps of test amount to that. */
  lemma TestRuns(w: World, i: nat, t: nat, why: Why) returns (n: nat)
    requires CanRun(w, i) && t < |w.mood| && w.pc[i] == InTest(t, 0, why)
    ensures Leads(w, i, n, Goto(Tested(w, t), i, AfterTest(w, i, why)))
  {
    hide Leads;
    var v := Goto(Tested(w, t), i, AfterTest(w, i, why));
    var w1 := Step(w, i);
    if !w.mood[t].Hungry? {
      n := 1;
      OneStep(w, i);
    } else {
      assert w1.pc == w.pc[i := InTest(t, 1, why)];
      var w2 := Step(w1, i);
      OneStep(w, i);
      OneStep(w1, i);
      LeadsOn(w, i, 1, w1, 1, w2);
      if w.mood[LeftOf(|w.mood|, w.joining, t)].Eating? {
        n := 2;
        assert w2.pc == v.pc;
      } else {
        assert w2.pc == w.pc[i := InTest(t, 2, why)];
        n := TestEnds(w, w2, i, t, why);
        LeadsOn(w, i, 2, w2, n, v);
        n := 2 + n;
      }
    }
  }

  lemma OneStep(w: World, i: nat)
    requires Enabled(w, i)
    ensures Leads(w, i, 1, Step(w, i))
  {
    hide Step;
    assert Leads(Step(w, i), i, 0, Step(w, i));
  }

  /** The second half of test: the right neighbour, the store and the post. */
  lemma TestEnds(w: World, w2: World, i: nat, t: nat, why: Why) returns (n: nat)
    requires CanRun(w, i) && t < |w.mood| && w.mood[t].Hungry? && !w.mood[LeftOf(|w.mood|, w.joining, t)].Eating?
    requires w2 == w.(pc := w.pc[i := InTest(t, 2, why)])
    ensures Leads(w2, i, n, Goto(Tested(w, t), i, AfterTest(w, i, why)))
  {
    hide Leads;
    var v := Goto(Tested(w, t), i, AfterTest(w, i, why));
    var w3 := Step(w2, i);
    OneStep(w2, i);
    if w.mood[RightOf(|w.mood|, t)].Eating? {
      n := 1;
      assert w3.pc == v.pc;
    } else {
      assert w3.pc == w.pc[i := InTest(t, 3, why)];
      var w4 := Step(w3, i);
      assert w4.pc == w.pc[i := InTest(t, 4, why)];
      OneStep(w3, i);
      OneStep(w4, i);
      LeadsOn(w2, i, 1, w3, 1, w4);
      LeadsOn(w2, i, 2, w4, 1, Step(w4, i));
      n := 3;
      assert Step(w4, i).pc == v.pc;
    }
  }

  /** take_fork undisturbed, up to its wait for the own semaphore: the caller is hungry and tested. */
  lemma TakeForkRuns(w: World, i: nat) returns (n: nat)
    requires CanRun(w, i) && w.pc[i].Away? && w.mutex > 0
    ensures Leads(w, i, n, Goto(Tested(w.(mood := w.mood[i := Hungry]), i), i, WaitOwn))
  {
    hide Leads, Tested;
    var w1 := Step(w, i);
    assert w1.pc == w.pc[i := SetHungry];
    var w2 := Step(w1, i);
    assert w2.pc == w.pc[i := InTest(i, 0, Taking)];
    OneStep(w, i);
    OneStep(w1, i);
    LeadsOn(w, i, 1, w1, 1, w2);
    n := TestRuns(w2, i, i, Taking);
    TestedApart(w.(mood := w.mood[i := Hungry]), w2, i);
    var w3 := Goto(Tested(w2, i), i, Release(true));
    LeadsOn(w, i, 2, w2, n, w3);
    OneStep(w3, i);
    LeadsOn(w, i, 2 + n, w3, 1, Step(w3, i));
    n := 3 + n;
    assert Step(w3, i).pc == w.pc[i := WaitOwn];
  }

  /** test looks at moods and private semaphores only. */
  lemma TestedApart(w: World, v: World, t: nat)
    requires Sized(w) && Sized(v) && t < |w.mood| && v.mood == w.mood && v.sem == w.sem && v.joining == w.joining
    ensures
      var a, b := Tested(w, t), Tested(v, t);
      && b.mood == a.mood && b.sem == a.sem && |a.mood| == |w.mood| && |a.sem| == |w.sem|
      && a.pc == w.pc && a.mutex == w.mutex && a.joining == w.joining
      && b.pc == v.pc && b.mutex == v.mutex && b.joining == v.joining
  {
  }

  /** If neither neighbour eats, it returns with the caller eating and every semaphore as before. */
  lemma TakeForkEats(w: World, i: nat) returns (n: nat)
    requires CanRun(w, i) && w.pc[i].Away? && w.mutex > 0 && !EatingNeighbour(w.(mood := w.mood[i := Hungry]), i)
    ensures Leads(w, i, n, Goto(w.(mood := w.mood[i := Eating]), i, AtTable))
  {
    hide Leads;
    n := TakeForkRuns(w, i);
    var v := Goto(Tested(w.(mood := w.mood[i := Hungry]), i), i, WaitOwn);
    OneStep(v, i);
    LeadsOn(w, i, n, v, 1, Step(v, i));
    n := n + 1;
    var u := Goto(w.(mood := w.mood[i := Eating]), i, AtTable);
    assert Step(v, i).mood == u.mood && Step(v, i).sem == u.sem && Step(v, i).pc == u.pc;
  }

  /** put_fork undisturbed: the caller thinks, and its left and then its right neighbour is tested. */
  lemma PutForkRuns(w: World, i: nat) returns (n: nat)
    requires CanRun(w, i) && w.pc[i].AtTable? && w.mutex > 0
    ensures LeftOf(|w.mood|, w.joining, i) < |w.mood| && RightOf(|w.mood|, i) < |w.mood|
    ensures Leads(w, i, n, Goto(Tested(Tested(w.(mood := w.mood[i := Thinking]), LeftOf(|w.mood|, w.joining, i)), RightOf(|w.mood|, i)), i, Away))
  {
    hide Leads, Tested;
    var l, r := LeftOf(|w.mood|, w.joining, i), RightOf(|w.mood|, i);
    var w1 := Step(w, i);
    assert w1.pc == w.pc[i := SetThinking];
    var w2 := Step(w1, i);
    assert w2.pc == w.pc[i := InTest(l, 0, PutLeft)];
    OneStep(w, i);
    OneStep(w1, i);
    LeadsOn(w, i, 1, w1, 1, w2);
    n := TestRuns(w2, i, l, PutLeft);
    var t := w.(mood := w.mood[i := Thinking]);
    TestedApart(t, w2, l);
    var w3 := Goto(Tested(w2, l), i, InTest(r, 0, PutRight));
    LeadsOn(w, i, 2, w2, n, w3);
    n := 2 + n;
    var m := TestRuns(w3, i, r, PutRight);
    TestedApart(Tested(t, l), w3, r);
    var w4 := Goto(Tested(w3, r), i, Release(false));
    LeadsOn(w, i, n, w3, m, w4);
    OneStep(w4, i);
    LeadsOn(w, i, n + m, w4, 1, Step(w4, i));
    n := n + m + 1;
    assert Step(w4, i).pc == w.pc[i := Away];
  }

  // ---- where additions lose a wake-up ------------------------------------------------------------

  /** A table of three: the first philosopher takes its forks, the last one then waits for it. */
  function Table(k: nat): World {
    var mood0 := if k < 2 then Thinking else if k < 6 then Hungry else Eating;
    var mood2 := if k < 11 then Thinking else Hungry;
    var pc0 := if k == 0 then Away else if k == 1 then SetHungry else if k < 7 then InTest(0, k - 2, Taking)
               else if k == 7 then Release(true) else if k == 8 then WaitOwn else AtTable;
    var pc2 := if k < 10 then Away else if k == 10 then SetHungry else if k < 14 then InTest(2, k - 11, Taking)
               else if k == 14 then Release(true) else WaitOwn;
    World([mood0, Thinking, mood2], [if k == 7 || k == 8 then 1 else 0, 0, 0], [pc0, Away, pc2],
          if 1 <= k < 8 || 10 <= k < 15 then 0 else 1, false)
  }

  lemma FirstTakes(k: nat)
    requires k < 9
    ensures Enabled(Table(k), 0) && Step(Table(k), 0) == Table(k + 1)
  {
    var w, v := Table(k), Table(k + 1);
    assert w.pc[0 := v.pc[0]] == v.pc && w.mood[0 := v.mood[0]] == v.mood && w.sem[0 := v.sem[0]] == v.sem;
  }

  lemma LastWaits(k: nat)
    requires 9 <= k < 15
    ensures Enabled(Table(k), 2) && Step(Table(k), 2) == Table(k + 1)
  {
    var w, v := Table(k), Table(k + 1);
    assert w.pc[2 := v.pc[2]] == v.pc && w.mood[2 := v.mood[2]] == v.mood;
  }

  function StrandingRun(): seq<World> {
    seq(16, k requires 0 <= k => Table(k)) + [Linked(Table(15)), Closed(Linked(Table(15)))]
  }

  function StrandingEvents(): seq<Event> {
    seq(15, k requires 0 <= k => Do(if k < 9 then 0 else 2)) + [Link, Close]
  }

  /** A run in which addPhilo then leaves the last philosopher hungry with no eating neighbour and
      nobody inside to test it. */
  lemma AddCanStrand()
    ensures
      var ws, es := StrandingRun(), StrandingEvents();
      && Run(ws, es, 3) && |es| == 17 && es[15] == Link && es[16] == Close
      && Sized(ws[17]) && |ws[17].mood| == 4 && (forall i :: 0 <= i < 4 ==> !Inside(ws[17].pc[i]))
      && ws[17].mood[2].Hungry? && !EatingNeighbour(ws[17], 2)
  {
    hide Enabled, Step;
    var ws, es := StrandingRun(), StrandingEvents();
    assert ws[0] == Init(3);
    forall k | 0 <= k < |es| ensures Possible(ws[k], es[k]) && ws[k + 1] == Next(ws[k], es[k]) {
      if k < 9 { FirstTakes(k); } else if k < 15 { LastWaits(k); }
    }
  }
}
