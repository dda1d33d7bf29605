/** The dining philosophers (Userland/SampleCodeModule/shell/commands/phylo.c) as a step machine:
    any number of philosophers around the ring, any interleaving, philosophers added at any time.
    A step is one load of a philosopher's state through a link, one store, or one semaphore operation. */
module Philosophers {

  datatype Mood = Eating | Hungry | Thinking

  /** On whose behalf `test` runs: take_fork on oneself, put_fork on the left or the right. */
  datatype Why = Taking | PutLeft | PutRight

  /** Where a philosopher is.  Stages of InTest: 0 to 2 read the three states, 3 stores EATING, 4 posts. */
  datatype Pc =
    | Away                                     // before semWait(mutex) of take_fork
    | SetHungry
    | InTest(target: nat, stage: nat, why: Why)
    | Release(took: bool)                      // before semPost(mutex)
    | WaitOwn                                  // before semWait(phil->sem)
    | AtTable                                  // take_fork has returned
    | SetThinking

  /** Philosophers in ring order, from firstPhil to the right.  While addPhilo is between its stores to
      firstPhil->left->right and firstPhil->left (lines 49-50), the newcomer is last and `joining` is set. */
  datatype World = World(mood: seq<Mood>, sem: seq<nat>, pc: seq<Pc>, mutex: nat, joining: bool)

  predicate Sized(w: World) {
    && |w.mood| == |w.sem| == |w.pc| > 0
    && (w.joining ==> |w.mood| > 1)
  }

  /** phil->left: during a joining the first philosopher still has the old last one there. */
  function LeftOf(n: nat, joining: bool, i: nat): nat
    requires n > 0 && (joining ==> n > 1)
  {
    if i > 0 then i - 1 else if joining then n - 2 else n - 1
  }

  /** phil->right */
  function RightOf(n: nat, i: nat): nat {
    if i + 1 >= n then 0 else i + 1
  }

  function Init(n: nat): World {
    World(seq(n, _ => Thinking), seq(n, _ => 0), seq(n, _ => Away), 1, false)
  }

  function Goto(w: World, i: nat, pc: Pc): World
    requires i < |w.pc|
  {
    w.(pc := w.pc[i := pc])
  }

  /** Where `test` returns to. */
  function AfterTest(w: World, i: nat, why: Why): Pc
    requires Sized(w)
  {
    match why
    case Taking => Release(true)
    case PutLeft => InTest(RightOf(|w.mood|, i), 0, PutRight)
    case PutRight => Release(false)
  }

  /** Can philosopher i take a step?  A joining newcomer's process is not loaded yet. */
  predicate Enabled(w: World, i: nat) {
    && Sized(w) && i < |w.pc| && !(w.joining && i == |w.pc| - 1)
    && match w.pc[i]
       case Away => w.mutex > 0
       case AtTable => w.mutex > 0
       case WaitOwn => w.sem[i] > 0
       case InTest(t, _, _) => t < |w.pc|
       case _ => true
  }

  function Step(w: World, i: nat): World
    requires Enabled(w, i)
  {
    match w.pc[i]
    case Away => Goto(w.(mutex := w.mutex - 1), i, SetHungry)
    case SetHungry => Goto(w.(mood := w.mood[i := Hungry]), i, InTest(i, 0, Taking))
    case InTest(t, stage, why) =>
      if stage == 0 then
        Goto(w, i, if w.mood[t].Hungry? then InTest(t, 1, why) else AfterTest(w, i, why))
      else if stage == 1 then
        Goto(w, i, if !w.mood[LeftOf(|w.mood|, w.joining, t)].Eating? then InTest(t, 2, why) else AfterTest(w, i, why))
      else if stage == 2 then
        Goto(w, i, if !w.mood[RightOf(|w.mood|, t)].Eating? then InTest(t, 3, why) else AfterTest(w, i, why))
      else if stage == 3 then
        Goto(w.(mood := w.mood[t := Eating]), i, InTest(t, 4, why))
      else
        Goto(w.(sem := w.sem[t := w.sem[t] + 1]), i, AfterTest(w, i, why))
    case Release(took) => Goto(w.(mutex := w.mutex + 1), i, if took then WaitOwn else Away)
    case WaitOwn => Goto(w.(sem := w.sem[i := w.sem[i] - 1]), i, AtTable)
    case AtTable => Goto(w.(mutex := w.mutex - 1), i, SetThinking)
    case SetThinking => Goto(w.(mood := w.mood[i := Thinking]), i, InTest(LeftOf(|w.mood|, w.joining, i), 0, PutLeft))
  }

  // ---- what holds ------------------------------------------------------------------------

  predicate Inside(pc: Pc) {
    pc.SetHungry? || pc.InTest? || pc.Release? || pc.SetThinking?
  }

  /** At most one philosopher is inside, and the mutex counts it. */
  ghost predicate Exclusive(w: World) {
    && (forall i, j :: 0 <= i < |w.pc| && 0 <= j < |w.pc| && Inside(w.pc[i]) && Inside(w.pc[j]) ==> i == j)
    && w.mutex <= 1
    && (w.mutex == 1 <==> forall i :: 0 <= i < |w.pc| ==> !Inside(w.pc[i]))
  }

  /** No two distinct neighbours along the ring eat. */
  ghost predicate NoClash(w: World)
    requires |w.mood| > 0
  {
    forall i :: 0 <= i < |w.mood| && w.mood[i].Eating? && w.mood[RightOf(|w.mood|, i)].Eating? ==> i == RightOf(|w.mood|, i)
  }

  /** What a philosopher in the middle of `test` has already read still holds. */
  ghost predicate TestOk(w: World, i: nat)
    requires Sized(w) && i < |w.pc|
  {
    w.pc[i].InTest? ==>
      var t, stage := w.pc[i].target, w.pc[i].stage;
      && t < |w.pc| && stage <= 4
      && (w.pc[i].why.Taking? ==> t == i && !w.mood[t].Thinking?)
      && (1 <= stage <= 3 ==> w.mood[t].Hungry?)
      && (2 <= stage <= 3 ==> !w.mood[LeftOf(|w.mood|, w.joining, t)].Eating?)
      && (stage == 3 ==> !w.mood[RightOf(|w.mood|, t)].Eating?)
      && (stage == 0 && w.pc[i].why.Taking? ==> w.mood[t].Hungry?)
      && (stage == 4 ==> w.mood[t].Eating? && (w.pc[i].why.Taking? || w.pc[t].WaitOwn?))
  }

  /** Somebody has marked t EATING but not posted its semaphore yet. */
  ghost predicate PostPending(w: World, t: nat) {
    exists i :: 0 <= i < |w.pc| && w.pc[i].InTest? && w.pc[i].target == t && w.pc[i].stage == 4
  }

  /** How mood and private semaphore go with the position of a philosopher. */
  ghost predicate MoodOk(w: World, i: nat)
    requires Sized(w) && i < |w.pc|
  {
    match w.pc[i]
    case Away => w.mood[i].Thinking? && w.sem[i] == 0
    case SetHungry => w.mood[i].Thinking? && w.sem[i] == 0
    case InTest(_, stage, why) => w.sem[i] == 0 && (!why.Taking? ==> w.mood[i].Thinking?)
    case Release(took) => if took then Granted(w, i) else w.mood[i].Thinking? && w.sem[i] == 0
    case WaitOwn => Granted(w, i)
    case AtTable => w.mood[i].Eating? && w.sem[i] == 0
    case SetThinking => w.mood[i].Eating? && w.sem[i] == 0
  }

  /** Hungry with nothing posted, or eating with exactly one post made or under way. */
  ghost predicate Granted(w: World, i: nat)
    requires Sized(w) && i < |w.pc|
  {
    || (w.mood[i].Hungry? && w.sem[i] == 0)
    || (w.mood[i].Eating? && w.sem[i] == 1 && !PostPending(w, i))
    || (w.mood[i].Eating? && w.sem[i] == 0 && PostPending(w, i))
  }

  /** A newcomer has not done anything while it is being linked in. */
  predicate JoinOk(w: World)
    requires Sized(w)
  {
    var last := |w.mood| - 1;
    w.joining ==> w.mood[last].Thinking? && w.sem[last] == 0 && w.pc[last].Away?
  }

  ghost predicate Safe(w: World) {
    && Sized(w) && Exclusive(w) && NoClash(w) && JoinOk(w)
    && (forall i :: 0 <= i < |w.pc| ==> TestOk(w, i))
    && (forall i :: 0 <= i < |w.pc| ==> MoodOk(w, i))
  }

  lemma InitSafe(n: nat)
    requires n > 0
    ensures Safe(Init(n))
  {
  }

  // ---- one step keeps it -------------------------------------------------------------------

  /** Steps outside the mutex section that enter it, or take a private semaphore. */
  lemma EnterSafe(w: World, i: nat)
    requires Safe(w) && Enabled(w, i) && (w.pc[i].Away? || w.pc[i].AtTable? || w.pc[i].WaitOwn?)
    ensures Safe(Step(w, i))
  {
    var v := Step(w, i);
    SamePending(w, v, i);
    assert MoodOk(w, i);
    forall j | 0 <= j < |v.pc| ensures TestOk(v, j) && MoodOk(v, j) {
      assert TestOk(w, j) && MoodOk(w, j);
      assert w.pc[j].InTest? && w.pc[j].stage == 4 ==> PostPending(w, w.pc[j].target);
    }
  }

  /** A step of i that is not in a posting position before or after changes nothing about pending posts. */
  lemma SamePending(w: World, v: World, i: nat)
    requires i < |w.pc| == |v.pc| && (forall j :: 0 <= j < |w.pc| && j != i ==> v.pc[j] == w.pc[j])
    requires !(w.pc[i].InTest? && w.pc[i].stage == 4) && !(v.pc[i].InTest? && v.pc[i].stage == 4)
    ensures forall t :: PostPending(v, t) <==> PostPending(w, t)
  {
    forall t ensures PostPending(v, t) <==> PostPending(w, t) {
      if PostPending(v, t) {
        var j :| 0 <= j < |v.pc| && v.pc[j].InTest? && v.pc[j].target == t && v.pc[j].stage == 4;
        assert w.pc[j].InTest? && w.pc[j].target == t && w.pc[j].stage == 4;
      }
      if PostPending(w, t) {
        var j :| 0 <= j < |w.pc| && w.pc[j].InTest? && w.pc[j].target == t && w.pc[j].stage == 4;
        assert v.pc[j].InTest? && v.pc[j].target == t && v.pc[j].stage == 4;
      }
    }
  }

  /** Inside, everybody else is outside. */
  lemma Alone(w: World, i: nat)
    requires Safe(w) && i < |w.pc| && Inside(w.pc[i])
    ensures w.mutex == 0 && forall j :: 0 <= j < |w.pc| && j != i ==> !Inside(w.pc[j])
    ensures forall t :: PostPending(w, t) <==> w.pc[i].InTest? && w.pc[i].stage == 4 && w.pc[i].target == t
  {
    AlonePending(w, i);
  }

  /** i stays inside: the mutex and everybody else's position are as before. */
  lemma StaysExclusive(w: World, v: World, i: nat)
    requires Safe(w) && i < |w.pc| && Inside(w.pc[i]) && |v.pc| == |w.pc| && v.mutex == w.mutex && Inside(v.pc[i])
    requires forall j :: 0 <= j < |w.pc| && j != i ==> v.pc[j] == w.pc[j]
    ensures Exclusive(v)
  {
    Alone(w, i);
  }

  lemma MoodSetSafe(w: World, i: nat)
    requires Safe(w) && Enabled(w, i) && (w.pc[i].SetHungry? || w.pc[i].SetThinking?)
    ensures Safe(Step(w, i))
  {
    var v := Step(w, i);
    Alone(w, i);
    StaysExclusive(w, v, i);
    SamePending(w, v, i);
    assert MoodOk(w, i);
    forall j | 0 <= j < |v.pc| ensures TestOk(v, j) && MoodOk(v, j) {
      assert TestOk(w, j) && MoodOk(w, j);
    }
  }

  lemma ReleaseSafe(w: World, i: nat)
    requires Safe(w) && Enabled(w, i) && w.pc[i].Release?
    ensures Safe(Step(w, i))
  {
    var v := Step(w, i);
    Alone(w, i);
    SamePending(w, v, i);
    forall j | 0 <= j < |v.pc| ensures TestOk(v, j) && MoodOk(v, j) {
      assert TestOk(w, j) && MoodOk(w, j);
    }
  }

  /** The three reads of `test`. */
  lemma ReadSafe(w: World, i: nat)
    requires Safe(w) && Enabled(w, i) && w.pc[i].InTest? && w.pc[i].stage <= 2
    ensures Safe(Step(w, i))
  {
    hide Exclusive, PostPending;
    var v := Step(w, i);
    Alone(w, i);
    StaysExclusive(w, v, i);
    SamePending(w, v, i);
    assert TestOk(w, i) && MoodOk(w, i);
    forall j | 0 <= j < |v.pc| ensures TestOk(v, j) && MoodOk(v, j) {
      assert TestOk(w, j) && MoodOk(w, j);
    }
  }

  /** `phil->state = EATING`: no neighbour was eating. */
  lemma GrantSafe(w: World, i: nat)
    requires Safe(w) && Enabled(w, i) && w.pc[i].InTest? && w.pc[i].stage == 3
    ensures Safe(Step(w, i))
  {
    var v := Step(w, i);
    var t := w.pc[i].target;
    Alone(w, i);
    StaysExclusive(w, v, i);
    AlonePending(v, i);
    assert TestOk(w, i) && MoodOk(w, i) && MoodOk(w, t);
    Around(w, t);
    forall j | 0 <= j < |v.pc| ensures TestOk(v, j) && MoodOk(v, j) {
      assert TestOk(w, j) && MoodOk(w, j);
    }
  }

  /** The only post that can be pending is that of the philosopher inside. */
  lemma AlonePending(w: World, i: nat)
    requires Exclusive(w) && i < |w.pc| && Inside(w.pc[i])
    ensures forall t :: PostPending(w, t) <==> w.pc[i].InTest? && w.pc[i].stage == 4 && w.pc[i].target == t
  {
    forall j | 0 <= j < |w.pc| && j != i ensures !Inside(w.pc[j]) {}
  }

  lemma Around(w: World, t: nat)
    requires Sized(w) && t < |w.mood|
    ensures LeftOf(|w.mood|, w.joining, t) < |w.mood| && RightOf(|w.mood|, t) < |w.mood|
    ensures forall j :: 0 <= j < |w.mood| && RightOf(|w.mood|, j) == t ==> j == LeftOf(|w.mood|, w.joining, t) || (w.joining && j == |w.mood| - 1)
    ensures forall j :: 0 <= j < |w.mood| && LeftOf(|w.mood|, w.joining, j) == t ==> j == RightOf(|w.mood|, t) || (w.joining && j == 0 && t == |w.mood| - 2)
  {
  }

  /** `sys_semPost(phil->sem)`: the pending post is made. */
  lemma PostSafe(w: World, i: nat)
    requires Safe(w) && Enabled(w, i) && w.pc[i].InTest? && w.pc[i].stage == 4
    ensures Safe(Step(w, i))
  {
    var v := Step(w, i);
    var t := w.pc[i].target;
    Alone(w, i);
    StaysExclusive(w, v, i);
    AlonePending(v, i);
    assert TestOk(w, i) && MoodOk(w, i) && MoodOk(w, t);
    assert PostPending(w, t);
    forall j | 0 <= j < |v.pc| ensures TestOk(v, j) && MoodOk(v, j) {
      assert TestOk(w, j) && MoodOk(w, j);
    }
  }

  lemma StepSafe(w: World, i: nat)
    requires Safe(w) && Enabled(w, i)
    ensures Safe(Step(w, i))
  {
    hide Safe, Step;
    match w.pc[i] {
      case SetHungry => MoodSetSafe(w, i);
      case SetThinking => MoodSetSafe(w, i);
      case Release(_) => ReleaseSafe(w, i);
      case InTest(_, stage, _) =>
        StageBound(w, i);
        if stage <= 2 { ReadSafe(w, i); } else if stage == 3 { GrantSafe(w, i); } else { PostSafe(w, i); }
      case _ => EnterSafe(w, i);
    }
  }

  lemma StageBound(w: World, i: nat)
    requires Safe(w) && i < |w.pc| && w.pc[i].InTest?
    ensures w.pc[i].stage <= 4
  {
    assert TestOk(w, i);
  }

  // ---- no missed wake-up -------------------------------------------------------------------

  predicate EatingNeighbour(w: World, h: nat)
    requires Sized(w) && h < |w.mood|
  {
    w.mood[LeftOf(|w.mood|, w.joining, h)].Eating? || w.mood[RightOf(|w.mood|, h)].Eating?
  }

  predicate TestsNow(w: World, i: nat, h: nat)
    requires i < |w.pc|
  {
    w.pc[i].InTest? && h == w.pc[i].target && w.pc[i].stage <= 3
  }

  /** i is inside and is testing h, or will test it next as its right neighbour. */
  predicate WillTest(w: World, i: nat, h: nat)
    requires Sized(w) && i < |w.pc|
  {
    TestsNow(w, i, h) || (w.pc[i].InTest? && w.pc[i].why.PutLeft? && h == RightOf(|w.mood|, i))
  }

  /** Every hungry philosopher has an eating neighbour or is about to be tested. */
  ghost predicate Noticed(w: World, h: nat)
    requires Sized(w) && h < |w.pc|
  {
    w.mood[h].Hungry? ==> EatingNeighbour(w, h) || exists i :: 0 <= i < |w.pc| && WillTest(w, i, h)
  }

  ghost predicate AllNoticed(w: World)
    requires Sized(w)
  {
    forall h :: 0 <= h < |w.pc| ==> Noticed(w, h)
  }

  /** The old last philosopher is about to stop eating while the first one, whose left link still points
      to it, relies on it alone: it will test the newcomer instead. */
  predicate Misses(w: World, i: nat)
    requires Sized(w) && i < |w.pc|
  {
    var n := |w.mood|;
    && w.joining && i == n - 2 && w.pc[i].SetThinking?
    && w.mood[0].Hungry? && !w.mood[RightOf(n, 0)].Eating? && LeftOf(n, w.joining, i) != 0
  }

  /** A step of a philosopher keeps everybody noticed, except for that one. */
  lemma StepNoticedIff(w: World, i: nat)
    requires Safe(w) && AllNoticed(w) && Enabled(w, i)
    ensures Sized(Step(w, i)) && (AllNoticed(Step(w, i)) <==> !Misses(w, i))
  {
    var v := Step(w, i);
    assert TestOk(w, i) && MoodOk(w, i);
    if Misses(w, i) {
      MissedNow(w, i);
    } else {
      forall h | 0 <= h < |v.pc| ensures Noticed(v, h) {
        assert Noticed(w, h);
        if Inside(w.pc[i]) { Alone(w, i); NoticedInside(w, i, h); } else { NoticedOutside(w, i, h); }
      }
    }
  }

  lemma MissedNow(w: World, i: nat)
    requires Safe(w) && Enabled(w, i) && Misses(w, i)
    ensures Sized(Step(w, i)) && !Noticed(Step(w, i), 0)
  {
    var v := Step(w, i);
    Alone(w, i);
    assert MoodOk(w, i);
    forall j | 0 <= j < |v.pc| ensures !WillTest(v, j, 0) {
      assert j != i ==> v.pc[j] == w.pc[j];
    }
  }

  lemma NoticedOutside(w: World, i: nat, h: nat)
    requires Safe(w) && Enabled(w, i) && h < |w.pc| && Noticed(w, h) && !Inside(w.pc[i])
    ensures Noticed(Step(w, i), h)
  {
    var v := Step(w, i);
    if w.mood[h].Hungry? && !EatingNeighbour(w, h) {
      var j :| 0 <= j < |w.pc| && WillTest(w, j, h);
      assert WillTest(v, j, h);
    }
  }

  lemma NoticedInside(w: World, i: nat, h: nat)
    requires Safe(w) && Enabled(w, i) && h < |w.pc| && Noticed(w, h) && Inside(w.pc[i]) && !Misses(w, i)
    requires forall j :: 0 <= j < |w.pc| && j != i ==> !Inside(w.pc[j])
    ensures Noticed(Step(w, i), h)
  {
    match w.pc[i] {
      case SetThinking => NoticedPut(w, i, h);
      case InTest(_, _, _) => NoticedTest(w, i, h);
      case _ => NoticedOther(w, i, h);
    }
  }

  lemma NoticedPut(w: World, i: nat, h: nat)
    requires Safe(w) && Enabled(w, i) && h < |w.pc| && Noticed(w, h) && w.pc[i].SetThinking? && !Misses(w, i)
    requires forall j :: 0 <= j < |w.pc| && j != i ==> !Inside(w.pc[j])
    ensures Noticed(Step(w, i), h)
  {
    var v := Step(w, i);
    assert MoodOk(w, i);
    assert w.mood[h].Hungry? ==> EatingNeighbour(w, h) && h != i;
    Around(w, i);
    Around(w, h);
    if h == LeftOf(|w.mood|, w.joining, i) || h == RightOf(|w.mood|, i) {
      assert WillTest(v, i, h);
    }
  }

  lemma NoticedTest(w: World, i: nat, h: nat)
    requires Safe(w) && Enabled(w, i) && h < |w.pc| && Noticed(w, h) && w.pc[i].InTest?
    requires forall j :: 0 <= j < |w.pc| && j != i ==> !Inside(w.pc[j])
    ensures Noticed(Step(w, i), h)
  {
    var v := Step(w, i);
    assert TestOk(w, i) && MoodOk(w, i);
    assert w.mood[h].Hungry? && !EatingNeighbour(w, h) ==> WillTest(w, i, h);
    if w.pc[i].stage == 3 {
      assert w.pc[i].why.PutLeft? && h == RightOf(|w.mood|, i) ==> WillTest(v, i, h);
    } else if WillTest(w, i, h) && v.pc[i].InTest? {
      assert WillTest(v, i, h) || !w.mood[h].Hungry? || EatingNeighbour(w, h);
    }
  }

  lemma NoticedOther(w: World, i: nat, h: nat)
    requires Safe(w) && Enabled(w, i) && h < |w.pc| && Noticed(w, h) && (w.pc[i].SetHungry? || w.pc[i].Release?)
    requires forall j :: 0 <= j < |w.pc| && j != i ==> !Inside(w.pc[j])
    ensures Noticed(Step(w, i), h)
  {
    var v := Step(w, i);
    assert MoodOk(w, i);
    if w.pc[i].SetHungry? && h == i {
      assert WillTest(v, i, h);
    }
  }

  // ---- addPhilo --------------------------------------------------------------------------------

  /** addPhilo up to `firstPhil->left->right = new`: no lock is taken. */
  function Linked(w: World): World {
    World(w.mood + [Thinking], w.sem + [0], w.pc + [Away], w.mutex, true)
  }

  /** `firstPhil->left = new`, and the newcomer's process is loaded. */
  function Closed(w: World): World { w.(joining := false) }

  /** Exclusion survives an addition at any moment, also in the middle of somebody's test. */
  lemma LinkSafe(w: World)
    requires Safe(w) && !w.joining
    ensures Safe(Linked(w))
  {
    var n, v := |w.mood|, Linked(w);
    LinkPending(w);
    assert forall i :: 0 <= i < n ==> v.pc[i] == w.pc[i];
    forall i | 0 <= i < |v.pc| ensures TestOk(v, i) && MoodOk(v, i) {
      if i < n {
        assert TestOk(w, i) && MoodOk(w, i);
        assert v.pc[i] == w.pc[i] && v.mood[i] == w.mood[i] && v.sem[i] == w.sem[i];
      }
    }
    forall i | 0 <= i < n + 1
      ensures v.mood[i].Eating? && v.mood[RightOf(n + 1, i)].Eating? ==> i == RightOf(n + 1, i)
    {
      assert i + 1 < n ==> RightOf(n, i) == i + 1 && v.mood[i] == w.mood[i] && v.mood[i + 1] == w.mood[i + 1];
    }
  }

  lemma LinkPending(w: World)
    requires Sized(w) && !w.joining
    ensures forall t :: PostPending(Linked(w), t) <==> PostPending(w, t)
  {
    var v := Linked(w);
    forall t | PostPending(w, t) ensures PostPending(v, t) {
      var i :| 0 <= i < |w.pc| && w.pc[i].InTest? && w.pc[i].target == t && w.pc[i].stage == 4;
      assert v.pc[i] == w.pc[i];
    }
  }

  lemma CloseSafe(w: World)
    requires Safe(w) && w.joining
    ensures Safe(Closed(w))
  {
    var v := Closed(w);
    forall t ensures PostPending(v, t) <==> PostPending(w, t) {}
    forall i | 0 <= i < |v.pc| ensures TestOk(v, i) && MoodOk(v, i) {
      assert TestOk(w, i) && MoodOk(w, i);
    }
  }

  /** Somebody is still going to test h, also once the last philosopher's right link has moved. */
  ghost predicate TestedAfterLink(w: World, h: nat)
    requires Sized(w)
  {
    exists i :: 0 <= i < |w.pc| && WillTest(w, i, h) && (i < |w.pc| - 1 || TestsNow(w, i, h))
  }

  /** The two ends of the opened seat do not rely on each other alone: the last philosopher has an eating
      left neighbour or a test to come, and the first one an eating neighbour or a test that the last
      one's moved link does not take away. */
  ghost predicate LinkHarmless(w: World)
    requires Sized(w) && !w.joining
  {
    var n := |w.mood|;
    && (w.mood[n - 1].Hungry? ==> w.mood[LeftOf(n, false, n - 1)].Eating? || TestedAfterLink(w, n - 1))
    && (w.mood[0].Hungry? ==> EatingNeighbour(w, 0) || TestedAfterLink(w, 0))
  }

  lemma LinkTests(w: World, h: nat)
    requires Sized(w) && !w.joining && h < |w.mood|
    ensures (exists i :: 0 <= i < |Linked(w).pc| && WillTest(Linked(w), i, h)) <==> TestedAfterLink(w, h)
  {
    var n, v := |w.mood|, Linked(w);
    assert forall i :: 0 <= i < n ==> v.pc[i] == w.pc[i];
    if TestedAfterLink(w, h) {
      var i :| 0 <= i < n && WillTest(w, i, h) && (i < n - 1 || TestsNow(w, i, h));
      assert WillTest(v, i, h);
    }
    forall i | 0 <= i < n + 1 && WillTest(v, i, h) ensures TestedAfterLink(w, h) {
      assert i < n && WillTest(w, i, h);
    }
  }

  /** The first store of addPhilo keeps everybody noticed exactly when it is harmless. */
  lemma LinkNoticedIff(w: World)
    requires Safe(w) && AllNoticed(w) && !w.joining
    ensures AllNoticed(Linked(w)) <==> LinkHarmless(w)
  {
    var n, v := |w.mood|, Linked(w);
    assert forall h :: 0 <= h < n ==> v.mood[h] == w.mood[h];
    forall h | 0 <= h < n ensures Noticed(v, h) <==> (w.mood[h].Hungry? ==> EatingNeighbour(v, h) || TestedAfterLink(w, h)) {
      LinkTests(w, h);
    }
    forall h | 0 < h < n - 1 ensures Noticed(v, h) {
      assert Noticed(w, h) && (EatingNeighbour(v, h) <==> EatingNeighbour(w, h));
      if w.mood[h].Hungry? && !EatingNeighbour(w, h) {
        var i :| 0 <= i < n && WillTest(w, i, h);
        assert i == n - 1 ==> RightOf(n, i) == 0;
        assert TestedAfterLink(w, h);
      }
    }
    LinkEnds(w);
    if AllNoticed(v) { assert Noticed(v, 0) && Noticed(v, n - 1); }
  }

  lemma LinkEnds(w: World)
    requires Sized(w) && !w.joining
    ensures
      var n, v := |w.mood|, Linked(w);
      && (n > 1 ==> (EatingNeighbour(v, 0) <==> EatingNeighbour(w, 0)))
      && (n == 1 && w.mood[0].Hungry? ==> !EatingNeighbour(v, 0) && !EatingNeighbour(w, 0) && !w.mood[LeftOf(n, false, 0)].Eating?)
      && (w.mood[n - 1].Hungry? ==> (EatingNeighbour(v, n - 1) <==> w.mood[LeftOf(n, false, n - 1)].Eating?))
  {
    var n, v := |w.mood|, Linked(w);
    assert forall h :: 0 <= h < n ==> v.mood[h] == w.mood[h];
  }

  /** The first philosopher does not rely on the old last one alone. */
  ghost predicate CloseHarmless(w: World)
    requires Sized(w) && w.joining
  {
    w.mood[0].Hungry? ==> w.mood[RightOf(|w.mood|, 0)].Eating? || exists i :: 0 <= i < |w.pc| && WillTest(w, i, 0)
  }

  /** The second store of addPhilo keeps everybody noticed exactly when it is harmless. */
  lemma CloseNoticedIff(w: World)
    requires Safe(w) && AllNoticed(w) && w.joining
    ensures AllNoticed(Closed(w)) <==> CloseHarmless(w)
  {
    var v := Closed(w);
    forall i, h | 0 <= i < |w.pc| ensures WillTest(v, i, h) <==> WillTest(w, i, h) {}
    forall h | 0 < h < |w.pc| ensures Noticed(v, h) {
      assert Noticed(w, h);
    }
    assert Noticed(v, 0) <==> CloseHarmless(w);
  }

  /** Neither end of the opened seat relies on the other one alone. */
  ghost predicate AddHarmless(w: World)
    requires Sized(w) && !w.joining
  {
    var n := |w.mood|;
    && (w.mood[n - 1].Hungry? ==> w.mood[LeftOf(n, false, n - 1)].Eating? || TestedAfterLink(w, n - 1))
    && (w.mood[0].Hungry? ==> w.mood[RightOf(n, 0)].Eating? || TestedAfterLink(w, 0))
  }

  /** addPhilo with nothing in between, at any moment, keeps everybody noticed exactly when that holds. */
  lemma AddNoticedIff(w: World)
    requires Safe(w) && AllNoticed(w) && !w.joining
    ensures Sized(Closed(Linked(w))) && (AllNoticed(Closed(Linked(w))) <==> AddHarmless(w))
  {
    hide AllNoticed, Exclusive, NoClash, JoinOk, TestOk, MoodOk, TestedAfterLink, WillTest;
    var v := Linked(w);
    LinkSafe(w);
    LinkNoticedIff(w);
    ClosedNoticedEarlier(v);
    LinkTests(w, 0);
    assert v.mood[0] == w.mood[0];
    assert |w.mood| > 1 ==> v.mood[1] == w.mood[1];
    if AllNoticed(v) { CloseNoticedIff(v); }
  }

  /** Whoever is noticed after the second store was noticed before it. */
  lemma ClosedNoticedEarlier(w: World)
    requires Safe(w) && w.joining
    ensures Sized(Closed(w)) && (AllNoticed(Closed(w)) ==> AllNoticed(w))
  {
    var v := Closed(w);
    forall i, h | 0 <= i < |w.pc| ensures WillTest(v, i, h) <==> WillTest(w, i, h) {}
    if AllNoticed(v) {
      forall h | 0 <= h < |w.pc| ensures Noticed(w, h) { assert Noticed(v, h); }
    }
  }
}
