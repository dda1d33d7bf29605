/** The kernel pipe (Kernel/utils/pipe.c): any number of writers and readers of one pipe, any
    interleaving of their semaphore operations and buffer accesses. */
module Pipe {
  import opened Bits
  import opened Counting

  /** writePipe: before semWait(sem), before the store, before semPost(sem), before semPost(fullSem). */
  datatype Writer = WAway | WStore(c: char) | WUnlock | WSignal

  /** readPipe: before semWait(fullSem), before semWait(sem), before the load, before semPost(sem). */
  datatype Reader = RAway | RLock | RLoad | RUnlock

  /** currentW and currentR are the lengths of `stored` and `loaded`, the bytes written and read so
      far; lead[r] is currentW when byte number r was read. */
  datatype State = State(buffer: seq<char>, currentW: nat, currentR: nat, sem: nat, fullSem: nat,
                         writers: seq<Writer>, readers: seq<Reader>,
                         stored: seq<char>, loaded: seq<char>, lead: seq<nat>)

  datatype Event = Write(i: nat, c: char) | Read(i: nat)

  /** openPipe, with the buffer as malloc left it. */
  function Init(buffer: seq<char>, writers: nat, readers: nat): State {
    State(buffer, 0, 0, 1, 0, seq(writers, _ => WAway), seq(readers, _ => RAway), [], [], [])
  }

  predicate Enabled(s: State, e: Event) {
    && |s.buffer| > 0
    && match e
       case Write(i, c) => i < |s.writers| && (s.writers[i].WAway? ==> s.sem > 0)
       case Read(i) =>
         && i < |s.readers| && (s.readers[i].RAway? ==> s.fullSem > 0) && (s.readers[i].RLock? ==> s.sem > 0)
  }

  function WriterAt(s: State, i: nat, w: Writer): State
    requires i < |s.writers|
  {
    s.(writers := s.writers[i := w])
  }

  function ReaderAt(s: State, i: nat, r: Reader): State
    requires i < |s.readers|
  {
    s.(readers := s.readers[i := r])
  }

  function Step(s: State, e: Event): State
    requires Enabled(s, e)
  {
    match e
    case Write(i, c) =>
      (match s.writers[i]
       case WAway => WriterAt(s.(sem := s.sem - 1), i, WStore(c))
       case WStore(c) =>
         WriterAt(s.(buffer := s.buffer[s.currentW % |s.buffer| := c], currentW := s.currentW + 1,
                     stored := s.stored + [c]), i, WUnlock)
       case WUnlock => WriterAt(s.(sem := s.sem + 1), i, WSignal)
       case WSignal => WriterAt(s.(fullSem := s.fullSem + 1), i, WAway))
    case Read(i) =>
      (match s.readers[i]
       case RAway => ReaderAt(s.(fullSem := s.fullSem - 1), i, RLock)
       case RLock => ReaderAt(s.(sem := s.sem - 1), i, RLoad)
       case RLoad =>
         ReaderAt(s.(currentR := s.currentR + 1, loaded := s.loaded + [s.buffer[s.currentR % |s.buffer|]],
                     lead := s.lead + [s.currentW]), i, RUnlock)
       case RUnlock => ReaderAt(s.(sem := s.sem + 1), i, RAway))
  }

  // ---- slots -----------------------------------------------------------------------------

  /** The last byte before w that shares its slot with byte r. */
  function Slot(n: nat, r: nat, w: nat): (j: nat)
    requires n > 0 && r < w
    ensures r <= j < w && w - j <= n && (w - r <= n <==> j == r)
    decreases w - r
  {
    if w - r <= n then r else Slot(n, r + n, w)
  }

  lemma ModPlus(a: nat, n: nat)
    requires n > 0
    ensures (a + n) % n == a % n
  {
    var q := a / n;
    assert a == q * n + a % n;
    assert (q + 1) * n == q * n + n;
    DivUnique(a + n, n, q + 1, a % n);
  }

  lemma {:induction false} SlotShares(n: nat, r: nat, w: nat)
    requires n > 0 && r < w
    ensures Slot(n, r, w) % n == r % n
    decreases w - r
  {
    if w - r > n {
      SlotShares(n, r + n, w);
      ModPlus(r, n);
    }
  }

  lemma SlotsDiffer(a: nat, b: nat, n: nat)
    requires n > 0 && a < b < a + n
    ensures a % n != b % n
  {
    if a % n == b % n {
      var x, y := a / n, b / n;
      assert a == x * n + a % n && b == y * n + b % n;
      assert (y - x) * n == b - a;
      if y - x >= 1 { MulGe(y - x, n); } else { MulNegate(x - y, n); }
    }
  }

  lemma MulNegate(x: int, d: nat)
    requires x >= 0
    ensures x * d >= 0 && (-x) * d == -(x * d)
  {
  }

  // ---- what holds ------------------------------------------------------------------------

  predicate WInside(w: Writer) { w.WStore? || w.WUnlock? }

  predicate RInside(r: Reader) { r.RLoad? || r.RUnlock? }

  /** Stored but not yet announced on fullSem. */
  predicate Unannounced(w: Writer) { w.WUnlock? || w.WSignal? }

  /** Claimed from fullSem but not yet read. */
  predicate Claiming(r: Reader) { r.RLock? || r.RLoad? }

  /** The last |buffer| bytes stored are in the buffer. */
  ghost predicate Recent(s: State) {
    |s.buffer| > 0 &&
    forall j :: 0 <= j < |s.stored| && |s.stored| - j <= |s.buffer| ==> s.buffer[j % |s.buffer|] == s.stored[j]
  }

  /** Every byte read was the latest one stored in its slot. */
  ghost predicate Latest(s: State) {
    |s.buffer| > 0 && |s.lead| == |s.loaded| &&
    forall r :: 0 <= r < |s.loaded| ==>
      r < s.lead[r] <= |s.stored| && s.loaded[r] == s.stored[Slot(|s.buffer|, r, s.lead[r])]
  }

  ghost predicate Inv(s: State) {
    && s.currentW == |s.stored| && s.currentR == |s.loaded|
    && s.sem + Count(s.writers, WInside) + Count(s.readers, RInside) == 1
    && s.fullSem + Count(s.writers, Unannounced) + Count(s.readers, Claiming) + s.currentR == s.currentW
    && Recent(s) && Latest(s)
  }

  lemma InitInv(buffer: seq<char>, writers: nat, readers: nat)
    requires |buffer| > 0
    ensures Inv(Init(buffer, writers, readers))
  {
    var s := Init(buffer, writers, readers);
    CountNone(s.writers, WInside);
    CountNone(s.writers, Unannounced);
    CountNone(s.readers, RInside);
    CountNone(s.readers, Claiming);
  }

  lemma CountersW(s: State, i: nat, w: Writer)
    requires i < |s.writers|
    ensures Count(s.writers[i := w], WInside) == Count(s.writers, WInside) - (if WInside(s.writers[i]) then 1 else 0) + (if WInside(w) then 1 else 0)
    ensures Count(s.writers[i := w], Unannounced) == Count(s.writers, Unannounced) - (if Unannounced(s.writers[i]) then 1 else 0) + (if Unannounced(w) then 1 else 0)
  {
    CountUpdate(s.writers, i, w, WInside);
    CountUpdate(s.writers, i, w, Unannounced);
  }

  lemma CountersR(s: State, i: nat, r: Reader)
    requires i < |s.readers|
    ensures Count(s.readers[i := r], RInside) == Count(s.readers, RInside) - (if RInside(s.readers[i]) then 1 else 0) + (if RInside(r) then 1 else 0)
    ensures Count(s.readers[i := r], Claiming) == Count(s.readers, Claiming) - (if Claiming(s.readers[i]) then 1 else 0) + (if Claiming(r) then 1 else 0)
  {
    CountUpdate(s.readers, i, r, RInside);
    CountUpdate(s.readers, i, r, Claiming);
  }

  lemma StoreKeeps(s: State, c: char)
    requires Recent(s) && Latest(s) && s.currentW == |s.stored|
    ensures
      var t := s.(buffer := s.buffer[s.currentW % |s.buffer| := c], currentW := s.currentW + 1, stored := s.stored + [c]);
      Recent(t) && Latest(t)
  {
    var n, w := |s.buffer|, s.currentW;
    var t := s.(buffer := s.buffer[w % n := c], currentW := w + 1, stored := s.stored + [c]);
    forall j | 0 <= j < |t.stored| && |t.stored| - j <= n ensures t.buffer[j % n] == t.stored[j] {
      if j < w { SlotsDiffer(j, w, n); }
    }
  }

  lemma LoadKeeps(s: State)
    requires Recent(s) && Latest(s) && s.currentW == |s.stored| && s.currentR == |s.loaded| && s.currentR < s.currentW
    ensures
      var t := s.(currentR := s.currentR + 1, loaded := s.loaded + [s.buffer[s.currentR % |s.buffer|]], lead := s.lead + [s.currentW]);
      Recent(t) && Latest(t)
  {
    SlotShares(|s.buffer|, s.currentR, s.currentW);
  }

  lemma StepInv(s: State, e: Event)
    requires Inv(s) && Enabled(s, e)
    ensures Inv(Step(s, e))
  {
    hide Count, Slot;
    var t := Step(s, e);
    match e {
      case Write(i, c) =>
        CountersW(s, i, t.writers[i]);
        if s.writers[i].WStore? { StoreKeeps(s, s.writers[i].c); }
      case Read(i) =>
        CountersR(s, i, t.readers[i]);
        if s.readers[i].RLoad? {
          CountSome(s.readers, i, Claiming);
          LoadKeeps(s);
        }
    }
  }

  // ---- runs ------------------------------------------------------------------------------

  ghost predicate Run(ss: seq<State>, es: seq<Event>, buffer: seq<char>, writers: nat, readers: nat) {
    && |buffer| > 0 && |ss| == |es| + 1 && ss[0] == Init(buffer, writers, readers)
    && forall k :: 0 <= k < |es| ==> Enabled(ss[k], es[k]) && ss[k + 1] == Step(ss[k], es[k])
  }

  lemma {:induction false} Reachable(ss: seq<State>, es: seq<Event>, buffer: seq<char>, writers: nat, readers: nat, k: nat)
    requires Run(ss, es, buffer, writers, readers) && k < |ss|
    ensures Inv(ss[k]) && |ss[k].buffer| == |buffer|
    decreases k
  {
    hide Inv;
    if k == 0 {
      InitInv(buffer, writers, readers);
    } else {
      Reachable(ss, es, buffer, writers, readers, k - 1);
      StepInv(ss[k - 1], es[k - 1]);
    }
  }

  /** fullSem is exactly the bytes stored and announced minus the bytes claimed, in every state; so a
      claimed byte has always been stored. */
  lemma FullSemAccounts(ss: seq<State>, es: seq<Event>, buffer: seq<char>, writers: nat, readers: nat, k: nat)
    requires Run(ss, es, buffer, writers, readers) && k < |ss|
    ensures
      var s := ss[k];
      && s.fullSem == (|s.stored| - Count(s.writers, Unannounced)) - (|s.loaded| + Count(s.readers, Claiming))
      && |s.loaded| + Count(s.readers, Claiming) <= |s.stored|
  {
    hide Recent, Latest;
    Reachable(ss, es, buffer, writers, readers, k);
  }

  /** At most one process is between semWait(sem) and semPost(sem). */
  lemma OneInside(ss: seq<State>, es: seq<Event>, buffer: seq<char>, writers: nat, readers: nat, k: nat, i: nat, j: nat)
    requires Run(ss, es, buffer, writers, readers) && k < |ss|
    ensures i < j < |ss[k].writers| ==> !(WInside(ss[k].writers[i]) && WInside(ss[k].writers[j]))
    ensures i < j < |ss[k].readers| ==> !(RInside(ss[k].readers[i]) && RInside(ss[k].readers[j]))
    ensures i < |ss[k].writers| && j < |ss[k].readers| ==> !(WInside(ss[k].writers[i]) && RInside(ss[k].readers[j]))
  {
    hide Recent, Latest;
    var s := ss[k];
    Reachable(ss, es, buffer, writers, readers, k);
    if i < j < |s.writers| && WInside(s.writers[i]) && WInside(s.writers[j]) { CountTwo(s.writers, i, j, WInside); }
    if i < j < |s.readers| && RInside(s.readers[i]) && RInside(s.readers[j]) { CountTwo(s.readers, i, j, RInside); }
    if i < |s.writers| && j < |s.readers| && WInside(s.writers[i]) && RInside(s.readers[j]) {
      CountSome(s.writers, i, WInside);
      CountSome(s.readers, j, RInside);
    }
  }

  /** In any run, read number r returns the newest byte in its slot, which is byte number r itself
      exactly when the writers were then at most one buffer ahead. */
  lemma EveryReadExplained(ss: seq<State>, es: seq<Event>, buffer: seq<char>, writers: nat, readers: nat, k: nat, r: nat)
    requires Run(ss, es, buffer, writers, readers) && k < |ss| && r < |ss[k].loaded|
    ensures
      var s := ss[k];
      && r < |s.lead| && r < s.lead[r] <= |s.stored|
      && s.loaded[r] == s.stored[Slot(|buffer|, r, s.lead[r])]
      && (Slot(|buffer|, r, s.lead[r]) == r <==> s.lead[r] - r <= |buffer|)
  {
    Reachable(ss, es, buffer, writers, readers, k);
  }

  /** The event is the store of line 93. */
  predicate Stores(s: State, e: Event) { e.Write? && e.i < |s.writers| && s.writers[e.i].WStore? }

  /** Writers only store when the buffer has room. */
  ghost predicate Roomy(ss: seq<State>, es: seq<Event>) {
    |ss| == |es| + 1 &&
    forall k :: 0 <= k < |es| && Stores(ss[k], es[k]) ==> ss[k].currentW < ss[k].currentR + |ss[k].buffer|
  }

  /** The writers are, and at every read were, at most one buffer ahead. */
  ghost predicate NotLapped(s: State) {
    && s.currentW <= s.currentR + |s.buffer| && |s.lead| == s.currentR
    && forall r :: 0 <= r < |s.lead| ==> s.lead[r] - r <= |s.buffer|
  }

  lemma StepNotLapped(s: State, e: Event)
    requires Inv(s) && NotLapped(s) && Enabled(s, e)
    requires Stores(s, e) ==> s.currentW < s.currentR + |s.buffer|
    ensures NotLapped(Step(s, e))
  {
    hide Count, Slot, Recent;
  }

  lemma {:induction false} NeverLapped(ss: seq<State>, es: seq<Event>, buffer: seq<char>, writers: nat, readers: nat, k: nat)
    requires Run(ss, es, buffer, writers, readers) && Roomy(ss, es) && k < |ss|
    ensures NotLapped(ss[k])
    decreases k
  {
    hide Inv, Step;
    if k > 0 {
      Reachable(ss, es, buffer, writers, readers, k - 1);
      NeverLapped(ss, es, buffer, writers, readers, k - 1);
      StepNotLapped(ss[k - 1], es[k - 1]);
    }
  }

  /** FIFO: with room for every store, the bytes read are a prefix of the bytes stored, over every
      interleaving of any number of readers and writers. */
  lemma Fifo(ss: seq<State>, es: seq<Event>, buffer: seq<char>, writers: nat, readers: nat, k: nat)
    requires Run(ss, es, buffer, writers, readers) && Roomy(ss, es) && k < |ss|
    ensures ss[k].loaded <= ss[k].stored
  {
    var s := ss[k];
    Reachable(ss, es, buffer, writers, readers, k);
    NeverLapped(ss, es, buffer, writers, readers, k);
    forall r | 0 <= r < |s.loaded| ensures r < |s.stored| && s.loaded[r] == s.stored[r] {
      EveryReadExplained(ss, es, buffer, writers, readers, k, r);
    }
  }

  // ---- the room guard is exact ------------------------------------------------------------

  /** From state k on reads and stores only add up, and a read made after it was made with at least the
      bytes of state k stored. */
  lemma {:induction false} LaterReads(ss: seq<State>, es: seq<Event>, buffer: seq<char>, writers: nat, readers: nat, k: nat, m: nat)
    requires Run(ss, es, buffer, writers, readers) && k <= m < |ss|
    ensures ss[k].currentR <= ss[m].currentR == |ss[m].lead| && ss[k].currentW <= ss[m].currentW && ss[k].lead <= ss[m].lead
    ensures forall r :: ss[k].currentR <= r < ss[m].currentR ==> ss[m].lead[r] >= ss[k].currentW
    decreases m - k
  {
    hide Inv, Step;
    Reachable(ss, es, buffer, writers, readers, m);
    Lengths(ss[m]);
    if k < m {
      LaterReads(ss, es, buffer, writers, readers, k, m - 1);
      Reachable(ss, es, buffer, writers, readers, m - 1);
      OneStepOn(ss[m - 1], es[m - 1]);
    }
  }

  lemma Lengths(s: State)
    requires Inv(s)
    ensures s.currentR == |s.lead| && |s.buffer| > 0
  {
    hide Count, Slot, Recent;
  }

  /** One step stores nothing and reads nothing, or stores one byte, or reads one. */
  lemma OneStepOn(s: State, e: Event)
    requires Inv(s) && Enabled(s, e)
    ensures
      var t := Step(s, e);
      && t.currentW == s.currentW + (if Stores(s, e) then 1 else 0) && |t.buffer| == |s.buffer|
      && if Loads(s, e) then t.currentR == s.currentR + 1 && t.lead == s.lead + [s.currentW]
         else t.currentR == s.currentR && t.lead == s.lead
  {
    hide Count, Slot, Recent;
  }

  /** The event is the load of line 108. */
  predicate Loads(s: State, e: Event) { e.Read? && e.i < |s.readers| && s.readers[e.i].RLoad? }

  /** Every store before state m had room, or overwrote a byte that was not read by then. */
  ghost predicate Spares(ss: seq<State>, es: seq<Event>, m: nat) {
    m < |ss| == |es| + 1 &&
    forall k :: 0 <= k < m && Stores(ss[k], es[k]) ==>
      ss[k].currentW < ss[k].currentR + |ss[k].buffer| || ss[k].currentW - |ss[k].buffer| >= ss[m].currentR
  }

  ghost predicate NoneLapped(s: State) { forall r :: 0 <= r < |s.lead| ==> s.lead[r] - r <= |s.buffer| }

  /** Where every store was sparing, the writers are at most one buffer ahead of every read still to come. */
  lemma {:induction false} SparedReads(ss: seq<State>, es: seq<Event>, buffer: seq<char>, writers: nat, readers: nat, m: nat, k: nat)
    requires Run(ss, es, buffer, writers, readers) && Spares(ss, es, m) && k <= m
    ensures NoneLapped(ss[k]) && (ss[k].currentR < ss[m].currentR ==> ss[k].currentW <= ss[k].currentR + |buffer|)
    decreases k
  {
    hide Inv, Step;
    Reachable(ss, es, buffer, writers, readers, k);
    if k > 0 {
      SparedReads(ss, es, buffer, writers, readers, m, k - 1);
      Reachable(ss, es, buffer, writers, readers, k - 1);
      Lengths(ss[k - 1]);
      OneStepOn(ss[k - 1], es[k - 1]);
      LaterReads(ss, es, buffer, writers, readers, k, m);
    }
  }

  /** Over any run up to any state m: no read was lapped exactly when each store, at the time it was made,
      had room or overwrote a byte that is not read by state m. */
  lemma NoneLappedIff(ss: seq<State>, es: seq<Event>, buffer: seq<char>, writers: nat, readers: nat, m: nat)
    requires Run(ss, es, buffer, writers, readers) && m < |ss|
    ensures NoneLapped(ss[m]) <==> Spares(ss, es, m)
  {
    hide Inv, Step;
    if Spares(ss, es, m) {
      SparedReads(ss, es, buffer, writers, readers, m, m);
    } else {
      var k :| 0 <= k < m && Stores(ss[k], es[k])
        && !(ss[k].currentW < ss[k].currentR + |ss[k].buffer| || ss[k].currentW - |ss[k].buffer| >= ss[m].currentR);
      LappedByStore(ss, es, buffer, writers, readers, k, m);
    }
  }

  /** A store without room laps the read of the byte it overwrites. */
  lemma LappedByStore(ss: seq<State>, es: seq<Event>, buffer: seq<char>, writers: nat, readers: nat, k: nat, m: nat)
    requires Run(ss, es, buffer, writers, readers) && k < m < |ss| && Stores(ss[k], es[k])
    requires ss[k].currentR <= ss[k].currentW - |ss[k].buffer| < ss[m].currentR
    ensures !NoneLapped(ss[m])
  {
    hide Inv, Step;
    Reachable(ss, es, buffer, writers, readers, k);
    Reachable(ss, es, buffer, writers, readers, m);
    OneStepOn(ss[k], es[k]);
    LaterReads(ss, es, buffer, writers, readers, k + 1, m);
    var r := ss[k].currentW - |buffer|;
    assert ss[m].lead[r] >= ss[k + 1].currentW;
  }

  /** Over any run up to any state: the bytes read are a prefix of the bytes stored if every store was
      sparing, and, when the bytes stored are all different, only if it was. */
  lemma FifoIff(ss: seq<State>, es: seq<Event>, buffer: seq<char>, writers: nat, readers: nat, m: nat)
    requires Run(ss, es, buffer, writers, readers) && m < |ss|
    ensures Spares(ss, es, m) ==> ss[m].loaded <= ss[m].stored
    ensures AllDifferent(ss[m].stored) ==> (ss[m].loaded <= ss[m].stored <==> Spares(ss, es, m))
  {
    hide Step, Spares;
    var s := ss[m];
    NoneLappedIff(ss, es, buffer, writers, readers, m);
    Reachable(ss, es, buffer, writers, readers, m);
    forall r | 0 <= r < |s.loaded|
      ensures r < |s.stored| && (s.lead[r] - r <= |buffer| ==> s.loaded[r] == s.stored[r])
      ensures AllDifferent(s.stored) && s.loaded[r] == s.stored[r] ==> s.lead[r] - r <= |buffer|
    {
      EveryReadExplained(ss, es, buffer, writers, readers, m, r);
    }
  }

  predicate AllDifferent(bytes: seq<char>) {
    forall i, j :: 0 <= i < j < |bytes| ==> bytes[i] != bytes[j]
  }

  /** Once everything stored has been read: no read was lapped exactly when every store had room; and if
      the bytes are all different, they were read in the order they were stored exactly then. */
  lemma FifoIffRoomy(ss: seq<State>, es: seq<Event>, buffer: seq<char>, writers: nat, readers: nat)
    requires Run(ss, es, buffer, writers, readers) && ss[|es|].currentR == ss[|es|].currentW
    ensures NoneLapped(ss[|es|]) <==> Roomy(ss, es)
    ensures AllDifferent(ss[|es|].stored) ==> (ss[|es|].loaded == ss[|es|].stored <==> Roomy(ss, es))
  {
    hide Inv, Step;
    var m := |es|;
    NoneLappedIff(ss, es, buffer, writers, readers, m);
    FifoIff(ss, es, buffer, writers, readers, m);
    Reachable(ss, es, buffer, writers, readers, m);
    AllRead(ss[m]);
    forall k | 0 <= k < m && Stores(ss[k], es[k]) ensures ss[k].currentW - |ss[k].buffer| < ss[m].currentR {
      Reachable(ss, es, buffer, writers, readers, k);
      Lengths(ss[k]);
      LaterReads(ss, es, buffer, writers, readers, k, m);
    }
  }

  lemma AllRead(s: State)
    requires Inv(s)
    ensures s.currentR == s.currentW ==> |s.loaded| == |s.stored|
  {
    hide Count, Slot, Recent, Latest;
  }

  // ---- whole calls ------------------------------------------------------------------------

  /** writePipe undisturbed: one byte more is stored, in the next slot, and announced. */
  lemma WriteCall(s: State, i: nat, c: char)
    requires i < |s.writers| && s.writers[i].WAway? && s.sem > 0 && |s.buffer| > 0
    ensures
      var w := Write(i, c);
      Enabled(s, w) &&
      var s1 := Step(s, w);
      Enabled(s1, w) &&
      var s2 := Step(s1, w);
      Enabled(s2, w) &&
      var s3 := Step(s2, w);
      Enabled(s3, w) &&
      Step(s3, w) == s.(buffer := s.buffer[s.currentW % |s.buffer| := c], currentW := s.currentW + 1,
                        stored := s.stored + [c], fullSem := s.fullSem + 1)
  {
    var w := Write(i, c);
    var s1 := Step(s, w);
    var s2 := Step(s1, w);
    var s3 := Step(s2, w);
    assert s1.writers == s.writers[i := WStore(c)];
    assert s2.writers == s.writers[i := WUnlock];
    assert s3.writers == s.writers[i := WSignal];
    assert Step(s3, w).writers == s.writers;
  }

  /** readPipe undisturbed: one announced byte is claimed and the next slot read. */
  lemma ReadCall(s: State, i: nat)
    requires i < |s.readers| && s.readers[i].RAway? && s.sem > 0 && s.fullSem > 0 && |s.buffer| > 0
    ensures
      var r := Read(i);
      Enabled(s, r) &&
      var s1 := Step(s, r);
      Enabled(s1, r) &&
      var s2 := Step(s1, r);
      Enabled(s2, r) &&
      var s3 := Step(s2, r);
      Enabled(s3, r) &&
      Step(s3, r) == s.(currentR := s.currentR + 1, fullSem := s.fullSem - 1,
                        loaded := s.loaded + [s.buffer[s.currentR % |s.buffer|]], lead := s.lead + [s.currentW])
  {
    var r := Read(i);
    var s1 := Step(s, r);
    var s2 := Step(s1, r);
    var s3 := Step(s2, r);
    assert s1.readers == s.readers[i := RLock];
    assert s2.readers == s.readers[i := RLoad];
    assert s3.readers == s.readers[i := RUnlock];
    assert Step(s3, r).readers == s.readers;
  }

  // ---- without room ----------------------------------------------------------------------

  /** One write after another by the only writer, none of them read. */
  ghost predicate Unread(s: State, bytes: seq<char>) {
    && s.writers == [WAway] && s.readers == [RAway] && s.sem == 1 && s.fullSem == |bytes|
    && s.stored == bytes && s.currentW == |bytes| && s.loaded == [] && s.currentR == 0 && s.lead == []
  }

  lemma {:induction false} WriteAll(buffer: seq<char>, bytes: seq<char>) returns (ss: seq<State>, es: seq<Event>)
    requires |buffer| > 0
    ensures Run(ss, es, buffer, 1, 1) && Unread(ss[|es|], bytes) && |ss[|es|].buffer| == |buffer|
    decreases |bytes|
  {
    hide Step, Enabled;
    if bytes == [] {
      ss, es := [Init(buffer, 1, 1)], [];
    } else {
      var n := |bytes| - 1;
      ss, es := WriteAll(buffer, bytes[..n]);
      var w := Write(0, bytes[n]);
      var s := ss[|es|];
      var s1, s2, s3, s4 := WriteOne(s, bytes[..n], bytes[n]);
      assert bytes == bytes[..n] + [bytes[n]];
      ss, es := Extend(ss, es, buffer, w, s1);
      ss, es := Extend(ss, es, buffer, w, s2);
      ss, es := Extend(ss, es, buffer, w, s3);
      ss, es := Extend(ss, es, buffer, w, s4);
    }
  }

  lemma Extend(ss: seq<State>, es: seq<Event>, buffer: seq<char>, e: Event, t: State) returns (ts: seq<State>, fs: seq<Event>)
    requires Run(ss, es, buffer, 1, 1) && Enabled(ss[|es|], e) && t == Step(ss[|es|], e)
    ensures Run(ts, fs, buffer, 1, 1) && |fs| == |es| + 1 && ts[|fs|] == t
  {
    ts, fs := ss + [t], es + [e];
  }

  /** The four steps of writePipe. */
  lemma WriteOne(s: State, bytes: seq<char>, c: char) returns (s1: State, s2: State, s3: State, s4: State)
    requires Unread(s, bytes) && |s.buffer| > 0
    ensures
      var w := Write(0, c);
      && Enabled(s, w) && s1 == Step(s, w) && Enabled(s1, w) && s2 == Step(s1, w)
      && Enabled(s2, w) && s3 == Step(s2, w) && Enabled(s3, w) && s4 == Step(s3, w)
      && Unread(s4, bytes + [c]) && |s4.buffer| == |s.buffer|
  {
    var w := Write(0, c);
    s1 := Step(s, w);
    assert s1.writers == [WStore(c)];
    s2 := Step(s1, w);
    assert s2.writers == [WUnlock];
    s3 := Step(s2, w);
    assert s3.writers == [WSignal];
    s4 := Step(s3, w);
    assert s4.writers == [WAway];
  }

  /** The first three steps of readPipe. */
  lemma ReadOne(s: State, bytes: seq<char>) returns (s1: State, s2: State, s3: State)
    requires Unread(s, bytes) && |s.buffer| > 0 && bytes != []
    ensures
      var r := Read(0);
      && Enabled(s, r) && s1 == Step(s, r) && Enabled(s1, r) && s2 == Step(s1, r) && Enabled(s2, r) && s3 == Step(s2, r)
      && |s3.loaded| == 1 && s3.lead == [|bytes|] && s3.stored == bytes
  {
    var r := Read(0);
    s1 := Step(s, r);
    assert s1.readers == [RLock];
    s2 := Step(s1, r);
    assert s2.readers == [RLoad];
    s3 := Step(s2, r);
  }

  /** Without room order is lost, whatever the size of the buffer: one byte more than fits is written
      and then read, and the first read returns the last byte. */
  lemma OverrunLosesBytes(buffer: seq<char>, bytes: seq<char>) returns (ss: seq<State>, es: seq<Event>)
    requires 0 < |buffer| && |bytes| == |buffer| + 1
    ensures Run(ss, es, buffer, 1, 1) && ss[|es|].stored == bytes && ss[|es|].loaded == [bytes[|buffer|]]
    ensures bytes[0] != bytes[|buffer|] ==> !(ss[|es|].loaded <= ss[|es|].stored)
  {
    hide Step, Enabled, Slot;
    ss, es := WriteAll(buffer, bytes);
    var s1, s2, s3 := ReadOne(ss[|es|], bytes);
    ss, es := Extend(ss, es, buffer, Read(0), s1);
    ss, es := Extend(ss, es, buffer, Read(0), s2);
    ss, es := Extend(ss, es, buffer, Read(0), s3);
    EveryReadExplained(ss, es, buffer, 1, 1, |es|, 0);
    LastSlot(|buffer|);
  }

  lemma LastSlot(n: nat)
    requires n > 0
    ensures Slot(n, 0, n + 1) == n
  {
  }
}
