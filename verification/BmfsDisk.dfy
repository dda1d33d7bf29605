/** findfile, create and delete of Bootloader/BMFS/bmfs.c on the directory buffer of one disk. */
module BmfsDisk {
  import opened Options
  import opened Bmfs

  // ---- the gap scan ----------------------------------------------------------------------

  lemma MultisetMember(out: seq<Entry>, rs: seq<Entry>, e: Entry)
    requires multiset(out) == multiset(rs)
    ensures e in out <==> e in rs
  {
    assert e in out <==> e in multiset(out);
    assert e in rs <==> e in multiset(rs);
  }

  lemma {:induction false} Twice(rs: seq<Entry>, x: Entry)
    requires multiset(rs)[x] >= 2
    ensures exists i, j :: 0 <= i < j < |rs| && rs[i] == x && rs[j] == x
  {
    assert rs == [rs[0]] + rs[1..];
    if rs[0] == x {
      assert x in multiset(rs[1..]);
      var j :| 0 <= j < |rs[1..]| && rs[1..][j] == x;
      assert rs[j + 1] == x;
    } else {
      Twice(rs[1..], x);
      var i, j :| 0 <= i < j < |rs[1..]| && rs[1..][i] == x && rs[1..][j] == x;
      assert rs[i + 1] == x && rs[j + 1] == x;
    }
  }

  lemma AtTwoPlaces(out: seq<Entry>, i: nat, j: nat)
    requires i < j < |out| && out[i] == out[j]
    ensures multiset(out)[out[i]] >= 2
  {
    assert out == out[..j] + [out[j]] + out[j + 1..];
    assert out[..j][i] == out[i];
  }

  lemma ApartAnyOrder(out: seq<Entry>, rs: seq<Entry>, i: nat, j: nat)
    requires multiset(out) == multiset(rs) && Disjoint(rs)
    requires i < j < |out| && IsFile(out[i]) && IsFile(out[j])
    ensures Apart(out[i], out[j])
  {
    var x, y := out[i], out[j];
    if x == y {
      AtTwoPlaces(out, i, j);
      Twice(rs, x);
    } else {
      MultisetMember(out, rs, x);
      MultisetMember(out, rs, y);
      var p, q :| 0 <= p < |rs| && rs[p] == x && 0 <= q < |rs| && rs[q] == y;
      assert Apart(rs[p], rs[q]);
    }
  }

  /** Placement does not depend on the order of the records. */
  lemma PlacedAnyOrder(out: seq<Entry>, rs: seq<Entry>, last: u64)
    requires multiset(out) == multiset(rs) && Placed(rs, last)
    ensures Placed(out, last)
  {
    forall i | 0 <= i < |out| && IsFile(out[i]) ensures InRange(out[i], last) {
      MultisetMember(out, rs, out[i]);
    }
    forall i, j | 0 <= i < j < |out| && IsFile(out[i]) && IsFile(out[j]) ensures Apart(out[i], out[j]) {
      ApartAnyOrder(out, rs, i, j);
    }
  }

  lemma FreeAnyOrder(out: seq<Entry>, rs: seq<Entry>, last: u64, n: nat)
    requires multiset(out) == multiset(rs)
    ensures forall s :: FreeRun(out, last, s, n) <==> FreeRun(rs, last, s, n)
  {
    forall b ensures Taken(out, b) <==> Taken(rs, b) {
      forall e ensures e in out <==> e in rs { MultisetMember(out, rs, e); }
    }
  }

  lemma AnswerAnyOrder(out: seq<Entry>, rs: seq<Entry>, last: u64, n: nat, start: u64)
    requires multiset(out) == multiset(rs) && ScanAnswer(out, last, n, start)
    ensures ScanAnswer(rs, last, n, start)
  {
    hide FreeRun, StaleFits;
    FreeAnyOrder(out, rs, last, n);
    forall e ensures e in out <==> e in rs { MultisetMember(out, rs, e); }
  }

  /** On sorted records each file ends before the next one starts. */
  lemma InOrder(rs: seq<Entry>, last: u64, i: nat, j: nat)
    requires Sorted(rs) && Placed(rs, last) && i < j < |rs| && IsFile(rs[i]) && IsFile(rs[j])
    ensures rs[i].start + rs[i].reserved <= rs[j].start
  {
    assert Ordered(rs[i], rs[j]) && Apart(rs[i], rs[j]);
  }

  /** The end of the file before position t, 1 before the first. */
  function PrevEnd(rs: seq<Entry>, t: nat): u64
    requires t <= |rs|
  {
    if t == 0 then 1 else Stop(rs[t - 1])
  }

  ghost predicate FilesUpTo(rs: seq<Entry>, t: nat) { t <= |rs| && forall i :: 0 <= i < t ==> IsFile(rs[i]) }

  /** Where record t's gap stops: at its start, or at the last block when no files follow. */
  function Limit(rs: seq<Entry>, last: u64, t: nat): u64
    requires t <= |rs|
  {
    if t == |rs| || IsDeleted(rs[t]) then last else rs[t].start
  }

  lemma GapFree(rs: seq<Entry>, last: u64, t: nat, n: nat)
    requires Sorted(rs) && Placed(rs, last) && NoEnds(rs) && FilesUpTo(rs, t) && 1 <= last
    requires PrevEnd(rs, t) + n <= Limit(rs, last, t)
    ensures FreeRun(rs, last, PrevEnd(rs, t), n)
  {
    var s := PrevEnd(rs, t);
    forall b, e | s <= b < s + n && e in rs ensures !Covers(e, b) {
      var i :| 0 <= i < |rs| && rs[i] == e;
      if IsFile(e) {
        if i < t { if i < t - 1 { InOrder(rs, last, i, t - 1); } }
        else { assert Ordered(rs[t], rs[i]) || i == t; }
      }
    }
  }

  predicate NoEnds(rs: seq<Entry>) { forall i :: 0 <= i < |rs| ==> !IsEnd(rs[i]) }

  /** Nothing fits below the end of the previous file. */
  ghost predicate NoneBelow(rs: seq<Entry>, last: u64, n: nat, t: nat)
    requires t <= |rs|
  {
    forall s :: FreeRun(rs, last, s, n) ==> PrevEnd(rs, t) <= s
  }

  lemma CoveredIsTaken(rs: seq<Entry>, t: nat, b: int)
    requires t < |rs|
    ensures Covers(rs[t], b) ==> Taken(rs, b)
  {
    assert rs[t] in rs;
  }

  lemma GapTooSmall(rs: seq<Entry>, last: u64, t: nat, n: nat)
    requires Sorted(rs) && Placed(rs, last) && FilesUpTo(rs, t) && n > 0 && NoneBelow(rs, last, n, t)
    requires t < |rs| && IsFile(rs[t]) && PrevEnd(rs, t) + n > rs[t].start
    ensures NoneBelow(rs, last, n, t + 1)
  {
    var e := rs[t];
    assert InRange(e, last);
    forall s | FreeRun(rs, last, s, n) ensures PrevEnd(rs, t + 1) <= s {
      CoveredIsTaken(rs, t, if s <= e.start then e.start else s);
    }
  }

  /** The first fitting gap's start, as far as files go. */
  lemma GapPrefix(rs: seq<Entry>, last: u64, t: nat)
    requires Sorted(rs) && Placed(rs, last) && FilesUpTo(rs, t) && 1 <= last
    ensures 1 <= PrevEnd(rs, t) <= last
    ensures t < |rs| && IsFile(rs[t]) ==> PrevEnd(rs, t) <= rs[t].start
  {
    if t > 0 && t < |rs| && IsFile(rs[t]) { InOrder(rs, last, t - 1, t); }
  }

  /** The gap before record t fits and nothing lower does. */
  lemma GapFits(rs: seq<Entry>, last: u64, n: u64, t: nat)
    requires Sorted(rs) && Placed(rs, last) && NoEnds(rs) && 1 <= last && FilesUpTo(rs, t) && NoneBelow(rs, last, n, t)
    requires Minus(Limit(rs, last, t), PrevEnd(rs, t)) >= n
    ensures ScanAnswer(rs, last, n, PrevEnd(rs, t))
  {
    hide FreeRun;
    GapPrefix(rs, last, t);
    assert t < |rs| ==> !IsEnd(rs[t]);
    GapFree(rs, last, t, n);
  }

  /** After the last file: nothing fits at all. */
  lemma NothingFits(rs: seq<Entry>, last: u64, n: u64, t: nat)
    requires Sorted(rs) && Placed(rs, last) && 1 <= last && FilesUpTo(rs, t) && NoneBelow(rs, last, n, t)
    requires Minus(last, PrevEnd(rs, t)) < n
    ensures !Fits(rs, last, n)
  {
    GapPrefix(rs, last, t);
  }

  /** The gap before file t is too small. */
  lemma NextGap(rs: seq<Entry>, last: u64, n: u64, t: nat)
    requires Sorted(rs) && Placed(rs, last) && 1 <= last && n > 0 && FilesUpTo(rs, t) && NoneBelow(rs, last, n, t)
    requires t < |rs| && IsFile(rs[t]) && Minus(rs[t].start, PrevEnd(rs, t)) < n
    ensures NoneBelow(rs, last, n, t + 1)
  {
    GapPrefix(rs, last, t);
    GapTooSmall(rs, last, t, n);
  }

  lemma StaleFound(rs: seq<Entry>, last: u64, n: u64, t: nat)
    requires !Fits(rs, last, n) && t < |rs| && StaleFits(rs[t], last, n)
    ensures ScanAnswer(rs, last, n, Stop(rs[t]))
  {
    assert rs[t] in rs;
  }

  lemma DeletedStays(rs: seq<Entry>, t: nat)
    requires Sorted(rs) && 0 < t < |rs| && IsDeleted(rs[t - 1])
    ensures IsDeleted(rs[t])
  {
    assert Ordered(rs[t - 1], rs[t]);
  }

  /** The loop of create over the sorted records. */
  method Scan(rs: seq<Entry>, last: u64, n: u64) returns (start: u64)
    requires Sorted(rs) && Placed(rs, last) && NoEnds(rs) && 1 <= last && n > 0
    ensures ScanAnswer(rs, last, n, start)
  {
    hide FreeRun, Placed, Sorted, Stop, ScanAnswer, Fits, Minus, NoneBelow;
    start := 0;
    var prevEnd: u64 := 1;
    ghost var stale := false;
    var t := 0;
    NoneBelowOne(rs, last, n);
    while t < |rs| + 1
      invariant 0 <= t <= |rs| + 1
      invariant t <= |rs| ==> prevEnd == PrevEnd(rs, t)
      invariant !stale ==> t <= |rs| && FilesUpTo(rs, t) && NoneBelow(rs, last, n, t)
      invariant stale ==> !Fits(rs, last, n) && t > 0 && (t <= |rs| ==> IsDeleted(rs[t - 1]))
      invariant stale ==> forall i :: 0 <= i < t - 1 ==> !StaleFits(rs[i], last, n)
    {
      if stale && t < |rs| { DeletedStays(rs, t); }
      var thisStart: u64 := if t == |rs| || IsDeleted(rs[t]) then last else rs[t].start;
      if Minus(thisStart, prevEnd) >= n {
        if stale { StaleFound(rs, last, n, t - 1); } else { GapFits(rs, last, n, t); }
        start := prevEnd;
        return;
      }
      if !stale {
        if t == |rs| || IsDeleted(rs[t]) {
          NothingFits(rs, last, n, t);
          stale := true;
        } else {
          NextGap(rs, last, n, t);
        }
      }
      if t < |rs| { prevEnd := Stop(rs[t]); }
      t := t + 1;
    }
    Nowhere(rs, last, n);
  }

  lemma NoneBelowOne(rs: seq<Entry>, last: u64, n: nat)
    ensures NoneBelow(rs, last, n, 0)
  {
  }

  lemma Nowhere(rs: seq<Entry>, last: u64, n: u64)
    requires !Fits(rs, last, n) && forall i :: 0 <= i < |rs| ==> !StaleFits(rs[i], last, n)
    ensures ScanAnswer(rs, last, n, 0)
  {
  }

  // ---- the disk --------------------------------------------------------------------------

  class Disk {
    const directory: array<Entry>
    const numBlocks: nat

    ghost predicate Valid()
      reads directory
    {
      directory.Length == SLOTS && 2 <= numBlocks < 0x8000_0000 && Layout(directory[..], LastBlock())
    }

    function LastBlock(): u64
      requires 2 <= numBlocks < 0x8000_0000
    {
      numBlocks - 1
    }

    /** findfile: the record and its number, if a file of that name is listed before the end marker. */
    method FindFile(name: string) returns (r: Option<(Entry, nat)>)
      requires directory.Length == SLOTS
      ensures r.Some? <==> Find(directory[..], name).Some?
      ensures r.Some? ==> Find(directory[..], name) == Some(r.value.1) && r.value.0 == directory[r.value.1]
    {
      var t := 0;
      ghost var dir := directory[..];
      while t < SLOTS
        invariant 0 <= t <= SLOTS
        invariant forall i :: 0 <= i < t ==> !IsEnd(dir[i]) && !(IsFile(dir[i]) && dir[i].name == name)
      {
        var entry := directory[t];
        assert dir[t] == entry;
        if IsEnd(entry) {
          UsedUnique(dir, t);
          FindUnique(dir, name, None);
          return None;
        } else if IsDeleted(entry) {
        } else if name == entry.name {
          assert Used(dir) > t;
          FindUnique(dir, name, Some(t));
          return Some((entry, t));
        }
        t := t + 1;
      }
      FindUnique(dir, name, None);
      return None;
    }

    /** The counting loop of create. */
    method CountEntries() returns (used: nat, free: Option<nat>)
      requires directory.Length == SLOTS
      ensures used == Counted(directory[..]) && free == FirstFree(directory[..])
    {
      used, free := 0, None;
      var t := 0;
      ghost var dir := directory[..];
      while t < SLOTS
        invariant 0 <= t <= SLOTS && used == 0
        invariant forall i :: 0 <= i < t ==> !IsEnd(dir[i])
        invariant free.None? ==> forall i :: 0 <= i < t ==> IsFile(dir[i])
        invariant free.Some? ==> free.value < t && !IsFile(dir[free.value]) && forall i :: 0 <= i < free.value ==> IsFile(dir[i])
      {
        assert dir[t] == directory[t];
        if IsEnd(directory[t]) {
          UsedUnique(dir, t);
          used := t;
          if free.None? { free := Some(t); }
          FirstFreeUnique(dir, free.value);
          return;
        } else if IsDeleted(directory[t]) {
          if free.None? { free := Some(t); }
        }
        t := t + 1;
      }
      UsedUnique(dir, SLOTS);
      if free.Some? { FirstFreeUnique(dir, free.value); }
    }

    /** Sort a copy of the used records and scan its gaps. */
    method Place(used: nat, n: u64) returns (start: u64)
      requires Valid() && n > 0 && used == Counted(directory[..])
      ensures ScanAnswer(directory[..used], LastBlock(), n, start)
    {
      var rs := directory[..used];
      UsedPlaced(directory[..], LastBlock());
      var copy := QSort(rs);
      PlacedAnyOrder(copy, rs, LastBlock());
      forall i | 0 <= i < |copy| ensures !IsEnd(copy[i]) { MultisetMember(copy, rs, copy[i]); }
      start := Scan(copy, LastBlock(), n);
      AnswerAnyOrder(copy, rs, LastBlock(), n, start);
    }

    /** create: see CreateStep. */
    method Create(name: string, mib: nat) returns (out: Outcome)
      requires Valid() && IsName(name) && 1 <= mib < 0x1_0000_0000
      modifies directory
      ensures CreateStep(old(directory[..]), LastBlock(), name, Requested(mib), out, directory[..])
    {
      ghost var dir := directory[..];
      var size := if mib % 2 != 0 then mib + 1 else mib;
      var found := FindFile(name);
      if found.Some? { return Exists; }
      var n: u64 := size / 2;
      var used, free := CountEntries();
      if free.None? { return NoEntry; }
      var start := Place(used, n);
      assert directory[..used] == dir[..Counted(dir)];
      if start == 0 {
        assert Recorded(dir, name, n, start, NoSpace, dir);
        return NoSpace;
      }
      var slot := free.value;
      directory[slot] := Entry(name, start, n, 0);
      if slot == used && used + 1 < SLOTS {
        directory[used + 1] := directory[used + 1].(name := "");
      }
      out := Created(slot, start);
      assert directory[..] == Written(dir, slot, Entry(name, start, n, 0));
      assert Recorded(dir, name, n, start, out, directory[..]);
    }

    /** delete: the file's record becomes an unused one. */
    method Delete(name: string) returns (done: bool)
      requires directory.Length == SLOTS
      modifies directory
      ensures done == Find(old(directory[..]), name).Some?
      ensures directory[..] == Deleted(old(directory[..]), name)
    {
      var found := FindFile(name);
      if found.None? { return false; }
      var slot := found.value.1;
      directory[slot] := directory[slot].(name := directory[slot].name[0 := 1 as char]);
      return true;
    }
  }

  lemma UsedPlaced(dir: Directory, last: u64)
    requires Layout(dir, last) && last < 0x8000_0000
    ensures Placed(dir[..Counted(dir)], last) && Small(dir[..Counted(dir)]) && NoEnds(dir[..Counted(dir)])
  {
    var rs := dir[..Counted(dir)];
    forall i | 0 <= i < |rs| && !IsDeleted(rs[i]) ensures rs[i].start < 0x8000_0000 {
      assert rs[i] == Records(dir)[i];
    }
    assert rs == Records(dir) || rs == [];
  }
}
