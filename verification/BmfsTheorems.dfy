/** What create and delete of Bootloader/BMFS/bmfs.c keep, undo and lose, over single calls and runs. */
module BmfsTheorems {
  import opened Options
  import opened Bmfs

  // ---- adding one record -----------------------------------------------------------------

  /** `e` joined the records, at the end or over a deleted one. */
  predicate Joined(rs: seq<Entry>, slot: nat, e: Entry, out: seq<Entry>) {
    && slot <= |rs| && (slot < |rs| ==> IsDeleted(rs[slot])) && IsFile(e)
    && out == if slot == |rs| then rs + [e] else rs[slot := e]
  }

  lemma JoinTaken(rs: seq<Entry>, slot: nat, e: Entry, out: seq<Entry>)
    requires Joined(rs, slot, e, out)
    ensures forall b :: Taken(out, b) <==> Taken(rs, b) || Covers(e, b)
  {
    assert out[slot] == e;
    forall b, x | x in rs && Covers(x, b) ensures Taken(out, b) {
      var i :| 0 <= i < |rs| && rs[i] == x;
      assert out[i] == x;
    }
    forall b, x | x in out && Covers(x, b) ensures Taken(rs, b) || Covers(e, b) {
      var i :| 0 <= i < |out| && out[i] == x;
      assert i != slot ==> rs[i] == x;
    }
  }

  /** A run of blocks is free exactly when it is apart from every file. */
  lemma FreeIffApart(rs: seq<Entry>, last: u64, e: Entry)
    requires Placed(rs, last) && InRange(e, last)
    ensures FreeRun(rs, last, e.start, e.reserved) <==> forall i :: 0 <= i < |rs| && IsFile(rs[i]) ==> Apart(rs[i], e)
  {
    var s, n := e.start, e.reserved;
    if FreeRun(rs, last, s, n) {
      forall i | 0 <= i < |rs| && IsFile(rs[i]) ensures Apart(rs[i], e) {
        var b := if rs[i].start <= s then s else rs[i].start;
        assert InRange(rs[i], last);
        assert Covers(rs[i], b) ==> Taken(rs, b);
      }
    } else {
      var b :| s <= b < s + n && Taken(rs, b);
      var x :| x in rs && Covers(x, b);
      var i :| 0 <= i < |rs| && rs[i] == x;
      assert !Apart(rs[i], e);
    }
  }

  lemma JoinPlaced(rs: seq<Entry>, slot: nat, e: Entry, out: seq<Entry>, last: u64)
    requires Joined(rs, slot, e, out) && Placed(rs, last) && InRange(e, last)
    ensures Placed(out, last) <==> FreeRun(rs, last, e.start, e.reserved)
  {
    hide FreeRun;
    FreeIffApart(rs, last, e);
    assert out[slot] == e;
    if Placed(out, last) {
      forall i | 0 <= i < |rs| && IsFile(rs[i]) ensures Apart(rs[i], e) {
        assert out[i] == rs[i];
        assert Apart(out[i], out[slot]) || Apart(out[slot], out[i]);
      }
    }
  }

  lemma JoinNames(rs: seq<Entry>, slot: nat, e: Entry, out: seq<Entry>)
    requires Joined(rs, slot, e, out) && DistinctNames(rs)
    requires forall i :: 0 <= i < |rs| && IsFile(rs[i]) ==> rs[i].name != e.name
    ensures DistinctNames(out)
  {
  }

  /** Where create's record ends up in a directory with an end marker. */
  lemma WrittenJoins(dir: Directory, slot: nat, e: Entry)
    requires HasEnd(dir) && FirstFree(dir) == Some(slot) && IsFile(e)
    ensures var after := Written(dir, slot, e);
      && |after| == |dir| && slot <= Used(dir) && Joined(Records(dir), slot, e, Records(after))
      && forall i :: 0 <= i < Used(dir) && i != slot ==> after[i] == dir[i]
  {
    var after, u := Written(dir, slot, e), Used(dir);
    assert slot <= u;
    if slot == u {
      UsedUnique(after, u + 1);
      assert Records(after) == Records(dir) + [e];
    } else {
      UsedUnique(after, u);
      assert Records(after) == Records(dir)[slot := e];
    }
  }

  /** And in one without: the count is 0, so filling the first record ends the directory after it. */
  lemma WrittenFull(dir: Directory, slot: nat, e: Entry)
    requires !HasEnd(dir) && |dir| >= 2 && FirstFree(dir) == Some(slot) && IsFile(e)
    ensures var after := Written(dir, slot, e);
      && |after| == |dir| && Records(dir) == dir
      && (slot > 0 ==> Used(after) == |dir| && after == dir[slot := e] && Joined(dir, slot, e, Records(after)))
      && (slot == 0 ==> Used(after) == 1 && Records(after) == [e])
  {
    var after := Written(dir, slot, e);
    UsedUnique(after, if slot == 0 then 1 else |dir|);
  }

  // ---- names -----------------------------------------------------------------------------

  /** Every other name finds the same record as before. */
  ghost predicate OthersKept(dir: Directory, after: Directory, name: string) {
    |dir| == |after| &&
    forall other :: other != name ==> SameFile(dir, after, other)
  }

  predicate SameFile(dir: Directory, after: Directory, name: string)
    requires |dir| == |after|
  {
    Find(after, name) == Find(dir, name) && (Find(dir, name).Some? ==> after[Find(dir, name).value] == dir[Find(dir, name).value])
  }

  /** The records in use differ only at `slot`, which held no other file and now holds none but `name`. */
  predicate OnlyAt(dir: Directory, after: Directory, slot: nat, name: string) {
    && |dir| == |after| && slot < |dir|
    && (Used(after) == Used(dir) || (slot == Used(dir) && Used(after) == slot + 1))
    && (forall i :: 0 <= i < Used(dir) && i != slot ==> after[i] == dir[i])
    && (slot < Used(dir) && IsFile(dir[slot]) ==> dir[slot].name == name)
    && (slot < Used(after) && IsFile(after[slot]) ==> after[slot].name == name)
  }

  lemma OnlyAtKeeps(dir: Directory, after: Directory, slot: nat, name: string)
    requires OnlyAt(dir, after, slot, name)
    ensures OthersKept(dir, after, name)
  {
    forall other | other != name ensures SameFile(dir, after, other) {
      forall i ensures Names(after, i, other) <==> Names(dir, i, other) {}
      FindUnique(after, other, Find(dir, other));
    }
  }

  lemma FoundAt(dir: Directory, i: nat, name: string)
    requires DistinctNames(Records(dir)) && Names(dir, i, name)
    ensures Find(dir, name) == Some(i)
  {
    var rs := Records(dir);
    forall j | 0 <= j < i ensures !Names(dir, j, name) {
      assert rs[i] == dir[i] && (j < |rs| ==> rs[j] == dir[j]);
    }
    FindUnique(dir, name, Some(i));
  }

  // ---- create ----------------------------------------------------------------------------

  predicate NoFiles(dir: Directory) { forall i :: 0 <= i < |dir| ==> !IsFile(dir[i]) }

  /** create's new record, as the scan and the directory determine it. */
  lemma CreatedAt(dir: Directory, last: u64, name: string, n: u64, out: Outcome, after: Directory)
    requires CreateStep(dir, last, name, n, out, after) && out.Created?
    ensures Find(dir, name).None? && FirstFree(dir) == Some(out.slot) && out.start > 0
    ensures ScanAnswer(dir[..Counted(dir)], last, n, out.start)
    ensures after == Written(dir, out.slot, Entry(name, out.start, n, 0))
  {
    hide ScanAnswer, Find, FirstFree;
  }

  lemma NotNamed(dir: Directory, name: string)
    requires Find(dir, name).None?
    ensures forall i :: 0 <= i < |Records(dir)| && IsFile(Records(dir)[i]) ==> Records(dir)[i].name != name
  {
    forall i | 0 <= i < Used(dir) ensures !Names(dir, i, name) {}
    forall i | 0 <= i < Used(dir) && IsFile(dir[i]) ensures dir[i].name != name { assert !Names(dir, i, name); }
  }

  /** With an end marker the new file is found and every other name finds what it found before. */
  lemma CreateFinds(dir: Directory, last: u64, name: string, n: u64, out: Outcome, after: Directory)
    requires CreateStep(dir, last, name, n, out, after) && out.Created?
    requires DistinctNames(Records(dir)) && IsName(name) && HasEnd(dir)
    ensures DistinctNames(Records(after)) && Find(after, name) == Some(out.slot) && OthersKept(dir, after, name)
    ensures out.slot < |after| && after[out.slot] == Entry(name, out.start, n, 0)
  {
    hide ScanAnswer;
    CreatedAt(dir, last, name, n, out, after);
    var e := Entry(name, out.start, n, 0);
    WrittenJoins(dir, out.slot, e);
    NotNamed(dir, name);
    JoinNames(Records(dir), out.slot, e, Records(after));
    assert Records(after)[out.slot] == e;
    FoundAt(after, out.slot, name);
    OnlyAtKeeps(dir, after, out.slot, name);
  }

  /** With an end marker: the layout is kept exactly when the new extent was free. */
  lemma CreateLayout(dir: Directory, last: u64, name: string, n: u64, out: Outcome, after: Directory)
    requires CreateStep(dir, last, name, n, out, after) && out.Created?
    requires Layout(dir, last) && IsName(name) && HasEnd(dir) && n > 0 && out.start + n <= last
    ensures Layout(after, last) <==> FreeRun(Records(dir), last, out.start, n)
    ensures forall b :: Taken(Records(after), b) <==> Taken(Records(dir), b) || out.start <= b < out.start + n
  {
    hide ScanAnswer, FreeRun, Placed, Taken;
    CreatedAt(dir, last, name, n, out, after);
    CreateFinds(dir, last, name, n, out, after);
    var e := Entry(name, out.start, n, 0);
    WrittenJoins(dir, out.slot, e);
    JoinPlaced(Records(dir), out.slot, e, Records(after), last);
    JoinTaken(Records(dir), out.slot, e, Records(after));
  }

  /** Placement: whenever some free run is large enough, create takes the lowest one, whatever deleted
      records there are; the blocks in use grow by exactly that run, the layout is kept, the new file
      is found, and so is every other as before. */
  lemma CreateUsesLowestGap(dir: Directory, last: u64, name: string, n: u64, out: Outcome, after: Directory)
    requires CreateStep(dir, last, name, n, out, after) && Layout(dir, last) && IsName(name) && HasEnd(dir) && n > 0
    requires Find(dir, name).None? && Fits(Records(dir), last, n)
    ensures out.Created? && Lowest(Records(dir), last, out.start, n)
    ensures out.slot < |after| && after[out.slot] == Entry(name, out.start, n, 0)
    ensures Layout(after, last) && Find(after, name) == Some(out.slot) && OthersKept(dir, after, name)
    ensures forall b :: Taken(Records(after), b) <==> Taken(Records(dir), b) || out.start <= b < out.start + n
  {
    hide Placed, Taken, Written, DistinctNames;
    assert FirstFree(dir).Some? by {
      assert FirstFree(dir).None? ==> IsFile(dir[Used(dir)]);
    }
    CreatedAt(dir, last, name, n, out, after);
    CreateLayout(dir, last, name, n, out, after);
    CreateFinds(dir, last, name, n, out, after);
  }

  /** The stale end of a deleted record lets a request through that fits no gap. */
  ghost predicate StaleSpace(dir: Directory, last: u64, n: nat) {
    exists e :: e in Records(dir) && IsDeleted(e) && e.start + e.reserved + n <= last
  }

  lemma StaleEnds(dir: Directory, last: u64, e: Entry, n: u64)
    requires StaleInRange(dir, last) && e in Records(dir) && IsDeleted(e)
    ensures 2 <= Stop(e) == e.start + e.reserved <= last && (StaleFits(e, last, n) <==> Stop(e) + n <= last)
  {
    var i :| 0 <= i < Used(dir) && dir[i] == e;
  }

  /** With an end marker create reports no space exactly when the name is new, no gap fits, and no
      deleted record's stale end lies n blocks before the last one. */
  lemma NoSpaceIff(dir: Directory, last: u64, name: string, n: u64, out: Outcome, after: Directory)
    requires CreateStep(dir, last, name, n, out, after) && HasEnd(dir) && StaleInRange(dir, last) && n > 0
    ensures out == NoSpace <==> Find(dir, name).None? && !Fits(Records(dir), last, n) && !StaleSpace(dir, last, n)
    ensures out != NoEntry
  {
    hide Written, Stop, FreeRun, StaleFits, StaleInRange;
    assert FirstFree(dir).Some? by {
      assert FirstFree(dir).None? ==> IsFile(dir[Used(dir)]);
    }
    forall e | e in Records(dir) && IsDeleted(e) ensures (StaleFits(e, last, n) <==> e.start + e.reserved + n <= last) && Stop(e) > 0 {
      StaleEnds(dir, last, e, n);
    }
    forall e | e in Records(dir) && StaleFits(e, last, n) ensures IsDeleted(e) { FitsDeleted(e, last, n); }
    forall s | Lowest(Records(dir), last, s, n) ensures s > 0 { LowestPositive(Records(dir), last, s, n); }
  }

  lemma FitsDeleted(e: Entry, last: u64, n: nat)
    requires StaleFits(e, last, n)
    ensures IsDeleted(e)
  {
  }

  lemma LowestPositive(rs: seq<Entry>, last: u64, s: int, n: nat)
    requires Lowest(rs, last, s, n)
    ensures s > 0
  {
  }

  /** In particular, without deleted records: exactly when no gap fits. */
  lemma NoSpaceIffNoGap(dir: Directory, last: u64, name: string, n: u64, out: Outcome, after: Directory)
    requires CreateStep(dir, last, name, n, out, after) && HasEnd(dir) && n > 0
    requires forall i :: 0 <= i < Used(dir) ==> !IsDeleted(dir[i])
    ensures out == NoSpace <==> Find(dir, name).None? && !Fits(Records(dir), last, n)
  {
    hide Fits, Written;
    NoSpaceIff(dir, last, name, n, out, after);
  }

  /** The calls of create that keep the layout: with an end marker, a gap that fits or no stale end that
      does; without one, when blocks 1 .. 1+n are free, when they do not exist, or when the first record
      is the free one. */
  ghost predicate Safe(dir: Directory, last: u64, name: string, n: nat) {
    || Find(dir, name).Some? || FirstFree(dir).None?
    || if HasEnd(dir) then Fits(Records(dir), last, n) || !StaleSpace(dir, last, n)
       else 1 + n > last || FirstFree(dir) == Some(0) || FreeRun(Records(dir), last, 1, n)
  }

  /** Without an end marker create sees an empty disk. */
  lemma EmptyScan(last: u64, n: u64, start: u64)
    requires ScanAnswer([], last, n, start)
    ensures start == if 1 + n <= last then 1 else 0
  {
    assert 1 + n <= last ==> FreeRun([], last, 1, n);
  }

  lemma FullLayout(dir: Directory, last: u64, name: string, n: u64, out: Outcome, after: Directory)
    requires CreateStep(dir, last, name, n, out, after) && out.Created?
    requires Layout(dir, last) && IsName(name) && !HasEnd(dir) && |dir| >= 2 && n > 0
    ensures out.start == 1 && 1 + n <= last
    ensures Layout(after, last) <==> out.slot == 0 || FreeRun(Records(dir), last, 1, n)
  {
    hide FreeRun, Written, Find, FirstFree, ScanAnswer;
    CreatedAt(dir, last, name, n, out, after);
    assert dir[..Counted(dir)] == [];
    EmptyScan(last, n, out.start);
    var e := Entry(name, 1, n, 0);
    WrittenFull(dir, out.slot, e);
    if out.slot > 0 {
      NotNamed(dir, name);
      JoinNames(dir, out.slot, e, Records(after));
      JoinPlaced(dir, out.slot, e, Records(after), last);
    }
  }

  /** Where create put the record it created in a directory with an end marker. */
  lemma StartInRange(dir: Directory, last: u64, name: string, n: u64, out: Outcome, after: Directory)
    requires CreateStep(dir, last, name, n, out, after) && out.Created?
    requires HasEnd(dir) && StaleInRange(dir, last) && n > 0
    ensures 1 <= out.start && out.start + n <= last
    ensures Fits(Records(dir), last, n) <==> FreeRun(Records(dir), last, out.start, n)
  {
    hide Written, StaleInRange, StaleFits, Taken;
    CreatedAt(dir, last, name, n, out, after);
    forall e | e in Records(dir) && StaleFits(e, last, n) ensures Stop(e) + n <= last {
      FitsDeleted(e, last, n);
      StaleEnds(dir, last, e, n);
    }
  }

  /** create keeps the files apart, in range and under different names if and only if the call is Safe. */
  lemma LayoutKeptIff(dir: Directory, last: u64, name: string, n: u64, out: Outcome, after: Directory)
    requires CreateStep(dir, last, name, n, out, after)
    requires Layout(dir, last) && StaleInRange(dir, last) && IsName(name) && |dir| == SLOTS && n > 0
    ensures Layout(after, last) <==> Safe(dir, last, name, n)
  {
    hide FreeRun, Placed, DistinctNames, Written, StaleInRange, ScanAnswer, Taken;
    if HasEnd(dir) {
      NoSpaceIff(dir, last, name, n, out, after);
      if out.Created? {
        StartInRange(dir, last, name, n, out, after);
        CreateLayout(dir, last, name, n, out, after);
      }
    } else if out.Created? {
      FullLayout(dir, last, name, n, out, after);
    } else if out == NoSpace {
      assert dir[..Counted(dir)] == [];
      EmptyScan(last, n, 0);
    }
  }

  /** Whether every other name still finds its file: not if the end marker was missing, the first
      record free, and the request not larger than the disk. */
  ghost predicate SafeForOthers(dir: Directory, last: u64, name: string, n: nat) {
    Find(dir, name).Some? || HasEnd(dir) || FirstFree(dir) != Some(0) || 1 + n > last || NoFiles(dir)
  }

  lemma FullOthers(dir: Directory, name: string, slot: nat, e: Entry)
    requires Find(dir, name).None? && !HasEnd(dir) && |dir| >= 2 && FirstFree(dir) == Some(slot) && IsName(name) && e.name == name
    ensures OthersKept(dir, Written(dir, slot, e), name) <==> slot != 0 || NoFiles(dir)
  {
    var after := Written(dir, slot, e);
    WrittenFull(dir, slot, e);
    NotNamed(dir, name);
    if slot != 0 {
      OnlyAtKeeps(dir, after, slot, name);
    } else if NoFiles(dir) {
      assert after[0] == Records(after)[0];
      forall other | other != name ensures SameFile(dir, after, other) {
        FindUnique(dir, other, None);
        FindUnique(after, other, None);
      }
    } else {
      var i :| 0 <= i < |dir| && IsFile(dir[i]);
      assert Records(dir)[i] == dir[i];
      var other := dir[i].name;
      assert Names(dir, i, other) && other != name;
      assert after[0] == Records(after)[0];
      FindUnique(after, other, None);
      assert !SameFile(dir, after, other);
    }
  }

  /** create leaves what every other name finds unchanged if and only if the call is SafeForOthers. */
  lemma OthersKeptIff(dir: Directory, last: u64, name: string, n: u64, out: Outcome, after: Directory)
    requires CreateStep(dir, last, name, n, out, after)
    requires Layout(dir, last) && IsName(name) && |dir| == SLOTS && n > 0
    ensures OthersKept(dir, after, name) <==> SafeForOthers(dir, last, name, n)
  {
    hide FreeRun, Placed, DistinctNames, Written, ScanAnswer;
    if HasEnd(dir) {
      if out.Created? { CreateFinds(dir, last, name, n, out, after); }
    } else if out.Created? {
      FullLayout(dir, last, name, n, out, after);
      CreatedAt(dir, last, name, n, out, after);
      FullOthers(dir, name, out.slot, Entry(name, 1, n, 0));
    } else if out == NoSpace {
      assert dir[..Counted(dir)] == [];
      EmptyScan(last, n, 0);
    }
  }

  // ---- delete ----------------------------------------------------------------------------

  lemma DeletedShape(dir: Directory, name: string)
    requires Find(dir, name).Some?
    ensures var i, after := Find(dir, name).value, Deleted(dir, name);
      && |after| == |dir| && Used(after) == Used(dir) && i < Used(dir) && IsDeleted(after[i])
      && after[i].start == dir[i].start && after[i].reserved == dir[i].reserved
      && forall j :: 0 <= j < |dir| && j != i ==> after[j] == dir[j]
  {
    UsedUnique(Deleted(dir, name), Used(dir));
  }

  lemma DeleteFrees(rs: seq<Entry>, i: nat, d: Entry)
    requires i < |rs| && IsFile(rs[i]) && IsDeleted(d) && Disjoint(rs)
    ensures forall b :: Taken(rs[i := d], b) <==> Taken(rs, b) && !Covers(rs[i], b)
  {
    var out := rs[i := d];
    forall b, x | x in out && Covers(x, b) ensures Taken(rs, b) && !Covers(rs[i], b) {
      var j :| 0 <= j < |out| && out[j] == x;
      assert j != i && rs[j] == x;
      assert Apart(rs[i], rs[j]) || Apart(rs[j], rs[i]);
    }
    forall b, x | x in rs && Covers(x, b) && !Covers(rs[i], b) ensures Taken(out, b) {
      var j :| 0 <= j < |rs| && rs[j] == x;
      assert out[j] == x;
    }
  }

  /** delete removes just that file: its blocks become free and no others, its name is no longer
      found, every other name finds what it found before. */
  lemma DeleteExact(dir: Directory, last: u64, name: string)
    requires Layout(dir, last) && Find(dir, name).Some?
    ensures var i, after := Find(dir, name).value, Deleted(dir, name);
      && Layout(after, last) && (StaleInRange(dir, last) ==> StaleInRange(after, last))
      && Find(after, name).None? && OthersKept(dir, after, name)
      && forall b :: Taken(Records(after), b) <==> Taken(Records(dir), b) && !Covers(dir[i], b)
  {
    hide Taken, Find;
    var i, after := Find(dir, name).value, Deleted(dir, name);
    DeletedShape(dir, name);
    FindNames(dir, name);
    var rs := Records(dir);
    assert Records(after) == rs[i := after[i]] && rs[i] == dir[i];
    DeleteFrees(rs, i, after[i]);
    OnlyAtKeeps(dir, after, i, name);
    forall j ensures !Names(after, j, name) {
      assert 0 <= j < Used(dir) && j != i ==> after[j] == rs[j] && rs[i].name == name;
    }
    FindUnique(after, name, None);
  }

  lemma FindNames(dir: Directory, name: string)
    requires Find(dir, name).Some?
    ensures Names(dir, Find(dir, name).value, name)
  {
  }

  /** delete after create: every name finds what it found before, and the same blocks are in use. */
  lemma DeleteUndoesCreate(dir: Directory, last: u64, name: string, n: u64, out: Outcome, after: Directory)
    requires CreateStep(dir, last, name, n, out, after) && Layout(dir, last) && IsName(name) && HasEnd(dir) && n > 0
    requires Find(dir, name).None? && Fits(Records(dir), last, n)
    ensures var undone := Deleted(after, name);
      && |undone| == |dir| && (forall other :: SameFile(dir, undone, other))
      && (forall b :: Taken(Records(undone), b) <==> Taken(Records(dir), b))
  {
    hide ScanAnswer, Placed, DistinctNames, Taken, Find, Deleted;
    CreateUsesLowestGap(dir, last, name, n, out, after);
    CreatedAt(dir, last, name, n, out, after);
    DeleteExact(after, last, name);
    var undone := Deleted(after, name);
    forall other ensures SameFile(dir, undone, other) {
      assert other != name ==> SameFile(dir, after, other) && SameFile(after, undone, other);
    }
    forall b ensures Taken(Records(undone), b) <==> Taken(Records(dir), b) {
      RunNotTaken(Records(dir), last, out.start, n, b);
    }
  }

  lemma RunNotTaken(rs: seq<Entry>, last: u64, s: int, n: nat, b: int)
    requires Lowest(rs, last, s, n)
    ensures s <= b < s + n ==> !Taken(rs, b)
  {
  }

  // ---- runs ------------------------------------------------------------------------------

  datatype Op = Creating(name: string, mib: nat) | Deleting(name: string)

  /** A create command as the program accepts it, for a name that fits the record. */
  predicate WellFormed(op: Op) { op.Creating? ==> IsName(op.name) && 1 <= op.mib < 0x1_0000_0000 }

  ghost predicate StepTo(dir: Directory, last: u64, op: Op, after: Directory)
    requires WellFormed(op)
  {
    match op
    case Creating(name, mib) => exists out :: CreateStep(dir, last, name, Requested(mib), out, after)
    case Deleting(name) => after == Deleted(dir, name)
  }

  /** Commands on a freshly formatted disk. */
  ghost predicate Run(ds: seq<Directory>, ops: seq<Op>, last: u64) {
    && |ds| == |ops| + 1 && |ds[0]| == SLOTS && Used(ds[0]) == 0
    && forall k :: 0 <= k < |ops| ==> WellFormed(ops[k]) && StepTo(ds[k], last, ops[k], ds[k + 1])
  }

  ghost predicate CarefulAt(dir: Directory, last: u64, op: Op) {
    op.Creating? ==> Safe(dir, last, op.name, Requested(op.mib)) && SafeForOthers(dir, last, op.name, Requested(op.mib))
  }

  ghost predicate Careful(ds: seq<Directory>, ops: seq<Op>, last: u64) {
    |ds| == |ops| + 1 && forall k :: 0 <= k < |ops| ==> CarefulAt(ds[k], last, ops[k])
  }

  ghost predicate Sound(dir: Directory, last: u64) { |dir| == SLOTS && Layout(dir, last) && StaleInRange(dir, last) }

  lemma CreateStale(dir: Directory, last: u64, name: string, n: u64, out: Outcome, after: Directory)
    requires CreateStep(dir, last, name, n, out, after) && Sound(dir, last) && IsName(name) && n > 0
    ensures |after| == SLOTS && StaleInRange(after, last)
  {
    hide ScanAnswer, Placed, DistinctNames;
    if out.Created? {
      CreatedAt(dir, last, name, n, out, after);
      if HasEnd(dir) { WrittenJoins(dir, out.slot, Entry(name, out.start, n, 0)); }
      else { WrittenFull(dir, out.slot, Entry(name, out.start, n, 0)); }
    }
  }

  lemma StepSound(dir: Directory, last: u64, op: Op, after: Directory)
    requires Sound(dir, last) && WellFormed(op) && StepTo(dir, last, op, after) && CarefulAt(dir, last, op)
    ensures Sound(after, last) && OthersKept(dir, after, op.name)
    ensures op.Creating? && Find(dir, op.name).Some? ==> after == dir
  {
    hide Safe, SafeForOthers, CreateStep, Layout, StaleInRange, OthersKept;
    match op
    case Creating(name, mib) =>
      var n: u64 := Requested(mib);
      var out :| CreateStep(dir, last, name, n, out, after);
      CreateStale(dir, last, name, n, out, after);
      LayoutKeptIff(dir, last, name, n, out, after);
      OthersKeptIff(dir, last, name, n, out, after);
      if Find(dir, name).Some? { ExistsKeeps(dir, last, name, n, out, after); }
    case Deleting(name) =>
      if Find(dir, name).Some? {
        DeletedShape(dir, name);
        DeleteExact(dir, last, name);
      } else {
        Unchanged(dir, name);
      }
  }

  lemma Unchanged(dir: Directory, name: string)
    ensures OthersKept(dir, dir, name)
  {
  }

  lemma ExistsKeeps(dir: Directory, last: u64, name: string, n: u64, out: Outcome, after: Directory)
    requires CreateStep(dir, last, name, n, out, after) && Find(dir, name).Some?
    ensures after == dir
  {
  }

  /** Over every run of careful commands the files stay apart, in range and under different names. */
  lemma {:induction false} RunSound(ds: seq<Directory>, ops: seq<Op>, last: u64, k: nat)
    requires Run(ds, ops, last) && Careful(ds, ops, last) && k < |ds|
    ensures Sound(ds[k], last)
    decreases k
  {
    hide StepTo, CarefulAt;
    if k > 0 {
      RunSound(ds, ops, last, k - 1);
      StepSound(ds[k - 1], last, ops[k - 1], ds[k]);
    }
  }

  /** Over every run of careful commands a file keeps its record, and so its blocks, until it is deleted. */
  lemma {:induction false} FilesLast(ds: seq<Directory>, ops: seq<Op>, last: u64, j: nat, k: nat, name: string)
    requires Run(ds, ops, last) && Careful(ds, ops, last) && j <= k < |ds|
    requires Find(ds[j], name).Some? && forall m :: j <= m < k ==> ops[m] != Deleting(name)
    ensures |ds[j]| == |ds[k]| && SameFile(ds[j], ds[k], name)
    decreases k - j
  {
    hide StepTo, CarefulAt, Sound, Find;
    RunSound(ds, ops, last, j);
    RunSound(ds, ops, last, k);
    assert |ds[j]| == |ds[k]| by { SoundLength(ds[j], last); SoundLength(ds[k], last); }
    if j < k {
      FilesLast(ds, ops, last, j, k - 1, name);
      RunSound(ds, ops, last, k - 1);
      StepSound(ds[k - 1], last, ops[k - 1], ds[k]);
      var op := ops[k - 1];
      assert op.Deleting? ==> op == Deleting(op.name);
      assert op.name != name ==> SameFile(ds[k - 1], ds[k], name);
    }
  }

  lemma SoundLength(dir: Directory, last: u64)
    requires Sound(dir, last)
    ensures |dir| == SLOTS
  {
  }

  // ---- where the code does not keep its promise ------------------------------------------

  /** Seven blocks: file a in block 1, a deleted record for block 2, file c in blocks 3 to 5. */
  function Example(): seq<Entry> { [Entry("a", 1, 1, 0), Entry([1 as char], 2, 1, 0), Entry("c", 3, 3, 0)] }

  lemma NoTwoBlocks()
    ensures !Fits(Example(), 6, 2)
  {
    var rs := Example();
    assert rs[0] in rs && rs[2] in rs;
    assert Covers(rs[0], 1) && Covers(rs[2], 3) && Covers(rs[2], 4);
    forall s ensures !FreeRun(rs, 6, s, 2) {
      assert Taken(rs, 1) && Taken(rs, 3) && Taken(rs, 4);
    }
  }

  lemma ExampleLayout(dir: Directory)
    requires dir == Example() + seq(61, _ => Entry("", 0, 0, 0))
    ensures |dir| == SLOTS && Used(dir) == 3 && Records(dir) == Example() && Layout(dir, 6) && StaleInRange(dir, 6)
  {
    UsedUnique(dir, 3);
    assert Records(dir) == Example();
  }

  /** There a request for two blocks fits no gap, yet create grants it, over c. */
  lemma StaleEndOverlaps(dir: Directory, name: string, out: Outcome, after: Directory)
    requires dir == Example() + seq(61, _ => Entry("", 0, 0, 0))
    requires IsName(name) && name != "a" && name != "c" && CreateStep(dir, 6, name, 2, out, after)
    ensures Layout(dir, 6) && !Layout(after, 6)
  {
    hide Layout, CreateStep, StaleInRange, Fits;
    ExampleLayout(dir);
    NoTwoBlocks();
    var rs := Records(dir);
    assert rs[1] in rs && StaleSpace(dir, 6, 2);
    FindUnique(dir, name, None);
    FirstFreeUnique(dir, 1);
    LayoutKeptIff(dir, 6, name, 2, out, after);
  }

  /** A full directory whose first file was deleted: creating one more file makes all the others vanish. */
  lemma FullDirectoryForgets(dir: Directory, name: string, out: Outcome, after: Directory)
    requires |dir| == 64 && IsDeleted(dir[0]) && IsName(name)
    requires forall i :: 1 <= i < 64 ==> IsFile(dir[i]) && dir[i].name == [(i + 64) as char] && dir[i].start == i + 1 && dir[i].reserved == 1
    requires |name| > 1 && CreateStep(dir, 70, name, 1, out, after)
    ensures Layout(dir, 70)
    ensures forall k :: 1 <= k < 64 ==> Find(dir, dir[k].name) == Some(k) && Find(after, dir[k].name) == None
  {
    UsedUnique(dir, 64);
    var rs := Records(dir);
    assert rs == dir;
    forall i, j | 0 <= i < j < 64 && IsFile(dir[i]) && IsFile(dir[j]) ensures dir[i].name != dir[j].name {
      assert dir[i].name[0] != dir[j].name[0];
    }
    FindUnique(dir, name, None);
    FirstFreeUnique(dir, 0);
    FullFirst(dir, 70, name, 1, out, after);
    forall k | 1 <= k < 64 ensures Find(dir, dir[k].name) == Some(k) && Find(after, dir[k].name) == None {
      FoundAt(dir, k, dir[k].name);
      FindUnique(after, dir[k].name, None);
    }
  }

  lemma FullFirst(dir: Directory, last: u64, name: string, n: u64, out: Outcome, after: Directory)
    requires CreateStep(dir, last, name, n, out, after) && IsName(name) && n > 0 && 1 + n <= last
    requires |dir| == SLOTS && !HasEnd(dir) && Find(dir, name).None? && FirstFree(dir) == Some(0)
    ensures Used(after) == 1 && |after| == SLOTS && after[0].name == name
  {
    hide Find, FirstFree, ScanAnswer;
    assert dir[..Counted(dir)] == [];
    forall start: u64 | ScanAnswer([], last, n, start) ensures start == 1 { EmptyScan(last, n, start); }
    WrittenFull(dir, 0, Entry(name, 1, n, 0));
    assert after[0] == Records(after)[0];
  }
}
