/** The synchronised counter test (Userland/SampleCodeModule/shell/commands/test_sync.c): any number
    of `inc` processes, any iteration counts, any interleaving. */
module TestSync {
  import opened Counting

  /** Before semWait, before the load of slowInc, across its yield with the sum in `aux`, before semPost. */
  datatype Pc = Out | Load | Holding(aux: int) | Post

  /** value and N are the arguments of inc; done counts stores made. */
  datatype Proc = Proc(value: int, n: nat, done: nat, pc: Pc)

  /** guarded is false when inc is started without a semaphore. */
  datatype State = State(global: int, sem: nat, guarded: bool, procs: seq<Proc>)

  predicate Enabled(s: State, i: nat) {
    i < |s.procs| && (s.procs[i].pc.Out? ==> s.procs[i].done < s.procs[i].n && (s.guarded ==> s.sem > 0))
  }

  function Set(s: State, i: nat, p: Proc): State
    requires i < |s.procs|
  {
    s.(procs := s.procs[i := p])
  }

  function Step(s: State, i: nat): State
    requires Enabled(s, i)
  {
    var p := s.procs[i];
    match p.pc
    case Out => Set(s.(sem := if s.guarded then s.sem - 1 else s.sem), i, p.(pc := Load))
    case Load => Set(s, i, p.(pc := Holding(s.global + p.value)))
    case Holding(aux) => Set(s.(global := aux), i, p.(pc := Post, done := p.done + 1))
    case Post => Set(s.(sem := if s.guarded then s.sem + 1 else s.sem), i, p.(pc := Out))
  }

  predicate Inside(p: Proc) { !p.pc.Out? }

  /** n increments of v. */
  function Times(v: int, n: nat): int {
    if n == 0 then 0 else Times(v, n - 1) + v
  }

  function Sum(ps: seq<Proc>): int {
    if ps == [] then 0 else Times(ps[0].value, ps[0].done) + Sum(ps[1..])
  }

  lemma {:induction false} SumUpdate(ps: seq<Proc>, i: nat, p: Proc)
    requires i < |ps|
    ensures Sum(ps[i := p]) == Sum(ps) - Times(ps[i].value, ps[i].done) + Times(p.value, p.done)
  {
    var t := ps[i := p];
    if i == 0 {
      assert t[1..] == ps[1..];
    } else {
      assert t[1..] == ps[1..][i - 1 := p];
      SumUpdate(ps[1..], i - 1, p);
    }
  }

  /** At most one process is inside, what it holds is up to date, and the counter is the sum of all
      stores made. */
  ghost predicate Inv(s: State) {
    && s.guarded && s.sem + Count(s.procs, Inside) == 1
    && (forall i :: 0 <= i < |s.procs| && s.procs[i].pc.Holding? ==> s.procs[i].pc.aux == s.global + s.procs[i].value)
    && (forall i :: 0 <= i < |s.procs| ==> s.procs[i].done <= s.procs[i].n)
    && (forall i :: 0 <= i < |s.procs| && (s.procs[i].pc.Load? || s.procs[i].pc.Holding?) ==> s.procs[i].done < s.procs[i].n)
    && s.global == Sum(s.procs)
  }

  lemma OnlyOne(s: State, i: nat, j: nat)
    requires Inv(s) && i < |s.procs| && j < |s.procs| && Inside(s.procs[i]) && Inside(s.procs[j])
    ensures i == j
  {
    if i < j { CountTwo(s.procs, i, j, Inside); } else if j < i { CountTwo(s.procs, j, i, Inside); }
  }

  lemma StepInv(s: State, i: nat)
    requires Inv(s) && Enabled(s, i)
    ensures Inv(Step(s, i))
  {
    hide Count, Sum;
    var t := Step(s, i);
    CountUpdate(s.procs, i, t.procs[i], Inside);
    SumUpdate(s.procs, i, t.procs[i]);
    forall j | 0 <= j < |s.procs| && Inside(s.procs[j]) && Inside(s.procs[i]) ensures i == j { OnlyOne(s, i, j); }
  }

  // ---- runs ---------------------------------------------------------------------------------

  function Start(args: seq<(int, nat)>, guarded: bool): State {
    State(0, 1, guarded, seq(|args|, i requires 0 <= i < |args| => Proc(args[i].0, args[i].1, 0, Out)))
  }

  ghost predicate Run(ss: seq<State>, who: seq<nat>, args: seq<(int, nat)>, guarded: bool) {
    && |ss| == |who| + 1 && ss[0] == Start(args, guarded)
    && forall k :: 0 <= k < |who| ==> Enabled(ss[k], who[k]) && ss[k + 1] == Step(ss[k], who[k])
  }

  lemma {:induction false} StartSum(ps: seq<Proc>)
    requires forall i :: 0 <= i < |ps| ==> ps[i].done == 0
    ensures Sum(ps) == 0
  {
    if ps != [] { StartSum(ps[1..]); }
  }

  ghost predicate SameArgs(s: State, args: seq<(int, nat)>) {
    |s.procs| == |args| && forall i :: 0 <= i < |args| ==> s.procs[i].value == args[i].0 && s.procs[i].n == args[i].1
  }

  lemma {:induction false} Reachable(ss: seq<State>, who: seq<nat>, args: seq<(int, nat)>, k: nat)
    requires Run(ss, who, args, true) && k < |ss|
    ensures Inv(ss[k]) && SameArgs(ss[k], args)
    decreases k
  {
    hide Inv;
    if k == 0 {
      StartInv(args);
    } else {
      Reachable(ss, who, args, k - 1);
      StepInv(ss[k - 1], who[k - 1]);
    }
  }

  lemma StartInv(args: seq<(int, nat)>)
    ensures Inv(Start(args, true))
  {
    var s := Start(args, true);
    CountNone(s.procs, Inside);
    StartSum(s.procs);
  }

  /** No lost update: in every reachable state the counter is the sum of the stores made, and two
      processes are never both between the load and the store of slowInc. */
  lemma NoLostUpdate(ss: seq<State>, who: seq<nat>, args: seq<(int, nat)>, k: nat, i: nat, j: nat)
    requires Run(ss, who, args, true) && k < |ss|
    ensures ss[k].global == Sum(ss[k].procs)
    ensures i < |ss[k].procs| && j < |ss[k].procs| && ss[k].procs[i].pc.Holding? && ss[k].procs[j].pc.Holding? ==> i == j
  {
    Reachable(ss, who, args, k);
    if i < |ss[k].procs| && j < |ss[k].procs| && ss[k].procs[i].pc.Holding? && ss[k].procs[j].pc.Holding? {
      OnlyOne(ss[k], i, j);
    }
  }

  /** What all processes together must add up to. */
  function Expected(args: seq<(int, nat)>): int {
    if args == [] then 0 else Times(args[0].0, args[0].1) + Expected(args[1..])
  }

  lemma {:induction false} SumIsExpected(ps: seq<Proc>, args: seq<(int, nat)>)
    requires |ps| == |args| && forall i :: 0 <= i < |ps| ==> ps[i].value == args[i].0 && ps[i].done == args[i].1
    ensures Sum(ps) == Expected(args)
  {
    if ps != [] { SumIsExpected(ps[1..], args[1..]); }
  }

  /** When all processes have finished, the counter is exact. */
  lemma FinalValue(ss: seq<State>, who: seq<nat>, args: seq<(int, nat)>, k: nat)
    requires Run(ss, who, args, true) && k < |ss|
    requires forall i :: 0 <= i < |ss[k].procs| ==> ss[k].procs[i].done == ss[k].procs[i].n
    ensures ss[k].global == Expected(args)
  {
    Reachable(ss, who, args, k);
    SumIsExpected(ss[k].procs, args);
  }

  /** test_sync: `pairs` pairs of processes adding 1 and -1, n times each. */
  function Pairs(pairs: nat, n: nat): seq<(int, nat)> {
    if pairs == 0 then [] else [(1, n), (-1, n)] + Pairs(pairs - 1, n)
  }

  lemma {:induction false} TimesCancel(n: nat)
    ensures Times(1, n) + Times(-1, n) == 0
  {
    if n > 0 { TimesCancel(n - 1); }
  }

  lemma {:induction false} PairsCancel(pairs: nat, n: nat)
    ensures Expected(Pairs(pairs, n)) == 0
  {
    if pairs > 0 {
      PairsCancel(pairs - 1, n);
      TimesCancel(n);
      var a := Pairs(pairs, n);
      assert a[1..] == [(-1, n)] + Pairs(pairs - 1, n);
      assert a[1..][1..] == Pairs(pairs - 1, n);
    }
  }

  /** Equal +1/-1 pairs end at zero, for any number of pairs, iterations and any interleaving. */
  lemma PairsEndAtZero(ss: seq<State>, who: seq<nat>, pairs: nat, n: nat, k: nat)
    requires Run(ss, who, Pairs(pairs, n), true) && k < |ss|
    requires forall i :: 0 <= i < |ss[k].procs| ==> ss[k].procs[i].done == ss[k].procs[i].n
    ensures ss[k].global == 0
  {
    FinalValue(ss, who, Pairs(pairs, n), k);
    PairsCancel(pairs, n);
  }

  // ---- rounds and termination ------------------------------------------------------------------

  /** One round of a process on its own: the semaphore is taken and given back, its value is added to the
      counter once, and the round is counted. */
  lemma RoundAddsOnce(s: State, i: nat)
    requires Enabled(s, i) && s.procs[i].pc.Out?
    ensures
      var s1 := Step(s, i);
      Enabled(s1, i) &&
      var s2 := Step(s1, i);
      Enabled(s2, i) &&
      var s3 := Step(s2, i);
      Enabled(s3, i) &&
      Step(s3, i) == s.(global := s.global + s.procs[i].value, procs := s.procs[i := s.procs[i].(done := s.procs[i].done + 1)])
  {
    var p := s.procs[i];
    var s1 := Step(s, i);
    var s2 := Step(s1, i);
    var s3 := Step(s2, i);
    assert s1.procs == s.procs[i := p.(pc := Load)];
    assert s2.procs == s.procs[i := p.(pc := Holding(s.global + p.value))];
    assert s3.procs == s.procs[i := p.(pc := Post, done := p.done + 1)];
    assert Step(s3, i).procs == s.procs[i := p.(done := p.done + 1)];
  }

  /** Steps a process still has to take: four per round. */
  function StepsLeft(p: Proc): int {
    4 * (p.n - p.done) + match p.pc case Out => 0 case Load => -1 case Holding(_) => -2 case Post => 1
  }

  function Work(ps: seq<Proc>): int {
    if ps == [] then 0 else StepsLeft(ps[0]) + Work(ps[1..])
  }

  lemma {:induction false} WorkUpdate(ps: seq<Proc>, i: nat, p: Proc)
    requires i < |ps|
    ensures Work(ps[i := p]) == Work(ps) - StepsLeft(ps[i]) + StepsLeft(p)
  {
    var t := ps[i := p];
    if i == 0 {
      assert t[1..] == ps[1..];
    } else {
      assert t[1..] == ps[1..][i - 1 := p];
      WorkUpdate(ps[1..], i - 1, p);
    }
  }

  lemma StepWorks(s: State, i: nat)
    requires Enabled(s, i)
    ensures Work(Step(s, i).procs) == Work(s.procs) - 1
  {
    WorkUpdate(s.procs, i, Step(s, i).procs[i]);
  }

  predicate Finished(p: Proc) { p.pc.Out? && p.done == p.n }

  /** A process is finished exactly when it has no step left. */
  lemma {:induction false} WorkDone(ps: seq<Proc>)
    requires forall i :: 0 <= i < |ps| ==> ps[i].done <= ps[i].n
    requires forall i :: 0 <= i < |ps| && (ps[i].pc.Load? || ps[i].pc.Holding?) ==> ps[i].done < ps[i].n
    ensures Work(ps) >= 0 && (Work(ps) == 0 <==> forall i :: 0 <= i < |ps| ==> Finished(ps[i]))
  {
    if ps != [] {
      WorkDone(ps[1..]);
      assert ps[0].done <= ps[0].n;
      assert StepsLeft(ps[0]) >= 0 && (StepsLeft(ps[0]) == 0 <==> Finished(ps[0]));
      assert forall i :: 0 <= i < |ps| ==> ps[i] == if i == 0 then ps[0] else ps[1..][i - 1];
    }
  }

  /** As long as anybody is unfinished somebody can take a step. */
  lemma SomebodyCanStep(s: State) returns (i: nat)
    requires Inv(s) && exists j :: 0 <= j < |s.procs| && !Finished(s.procs[j])
    ensures Enabled(s, i)
  {
    var j :| 0 <= j < |s.procs| && !Finished(s.procs[j]);
    i := j;
    if s.procs[j].pc.Out? && s.sem == 0 {
      i := SomebodyInside(s.procs);
    }
  }

  lemma {:induction false} SomebodyInside(ps: seq<Proc>) returns (i: nat)
    requires Count(ps, Inside) > 0
    ensures i < |ps| && Inside(ps[i])
  {
    if Inside(ps[0]) {
      i := 0;
    } else {
      i := SomebodyInside(ps[1..]);
      i := i + 1;
    }
  }

  lemma {:induction false} WorkSoFar(ss: seq<State>, who: seq<nat>, args: seq<(int, nat)>, guarded: bool, k: nat)
    requires Run(ss, who, args, guarded) && k < |ss|
    ensures Work(ss[k].procs) == Work(Start(args, guarded).procs) - k
    decreases k
  {
    hide Work, Step;
    if k > 0 {
      WorkSoFar(ss, who, args, guarded, k - 1);
      StepWorks(ss[k - 1], who[k - 1]);
    }
  }

  /** Every run is finite, never stuck before everybody has finished, and then the counter is exact: no
      schedule takes more than four steps per round, and the run that has taken them all ends at the sum
      of all increments. */
  lemma EveryRunEndsExact(ss: seq<State>, who: seq<nat>, args: seq<(int, nat)>)
    requires Run(ss, who, args, true)
    ensures |who| <= Work(Start(args, true).procs)
    ensures |who| < Work(Start(args, true).procs) ==> exists i: nat :: Enabled(ss[|who|], i)
    ensures |who| == Work(Start(args, true).procs) ==> ss[|who|].global == Expected(args)
  {
    hide Work, Step, Enabled, Sum;
    var s := ss[|who|];
    Reachable(ss, who, args, |who|);
    WorkSoFar(ss, who, args, true, |who|);
    WorkDone(s.procs);
    if Work(s.procs) == 0 {
      FinalValue(ss, who, args, |who|);
    } else {
      var i := SomebodyCanStep(s);
    }
  }

  /** Without the semaphore the yield inside slowInc loses updates: one pair, one iteration each. */
  lemma UnguardedLosesUpdates() returns (ss: seq<State>, who: seq<nat>)
    ensures Run(ss, who, Pairs(1, 1), false)
    ensures forall i :: 0 <= i < |ss[|who|].procs| ==> ss[|who|].procs[i].done == ss[|who|].procs[i].n
    ensures ss[|who|].global != 0
  {
    assert Pairs(1, 1) == [(1, 1), (-1, 1)] by { assert Pairs(0, 1) == []; }
    who := [0, 0, 1, 1, 0, 1];
    var s0 := Start([(1, 1), (-1, 1)], false);
    assert s0.procs == [Proc(1, 1, 0, Out), Proc(-1, 1, 0, Out)];
    var s1 := Step(s0, 0);
    var s2 := Step(s1, 0);
    var s3 := Step(s2, 1);
    var s4 := Step(s3, 1);
    var s5 := Step(s4, 0);
    var s6 := Step(s5, 1);
    assert s6.procs == [Proc(1, 1, 1, Post), Proc(-1, 1, 1, Post)];
    ss := [s0, s1, s2, s3, s4, s5, s6];
  }
}
