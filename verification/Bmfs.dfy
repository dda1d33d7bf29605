/** The BareMetal file system directory (Bootloader/BMFS/bmfs.c): records, free runs of blocks, and
    the functions of the directory that findfile, create and delete refine. */
module Bmfs {
  import opened Options

  const SLOTS: nat := 64
  const WORD: nat := 0x1_0000_0000_0000_0000

  type u64 = x: nat | x < WORD

  /** A directory record. The name is a C string, so its first byte is 0x00 exactly when it is empty. */
  datatype Entry = Entry(name: string, start: u64, reserved: u64, size: u64)

  type Directory = seq<Entry>

  predicate IsEnd(e: Entry) { e.name == "" }

  predicate IsDeleted(e: Entry) { e.name != "" && e.name[0] == 1 as char }

  predicate IsFile(e: Entry) { !IsEnd(e) && !IsDeleted(e) }

  /** Unsigned 64-bit subtraction. */
  function Minus(a: u64, b: u64): u64 { if a >= b then a - b else a - b + WORD }

  /** Where the record's extent ends, an unsigned 64-bit sum. */
  function Stop(e: Entry): u64 {
    if e.start + e.reserved < WORD then e.start + e.reserved else e.start + e.reserved - WORD
  }

  /** A C string that fits the 32-byte field and marks neither the end nor an unused record. */
  predicate IsName(name: string) { 0 < |name| < 32 && name[0] != 1 as char }

  // ---- the directory as a list of records ------------------------------------------------

  /** The records before the end marker, all of them if there is none. */
  function Used(dir: Directory): (n: nat)
    ensures n <= |dir| && (forall i :: 0 <= i < n ==> !IsEnd(dir[i])) && (n < |dir| ==> IsEnd(dir[n]))
  {
    if dir == [] || IsEnd(dir[0]) then 0 else 1 + Used(dir[1..])
  }

  lemma {:induction false} UsedUnique(dir: Directory, n: nat)
    requires n <= |dir| && (forall i :: 0 <= i < n ==> !IsEnd(dir[i])) && (n < |dir| ==> IsEnd(dir[n]))
    ensures Used(dir) == n
  {
    if n > 0 { UsedUnique(dir[1..], n - 1); }
  }

  predicate HasEnd(dir: Directory) { Used(dir) < |dir| }

  /** The first record create may overwrite. */
  function FirstFree(dir: Directory): (r: Option<nat>)
    ensures r.Some? ==> r.value < |dir| && !IsFile(dir[r.value]) && forall i :: 0 <= i < r.value ==> IsFile(dir[i])
    ensures r.None? ==> forall i :: 0 <= i < |dir| ==> IsFile(dir[i])
  {
    if dir == [] then None
    else if !IsFile(dir[0]) then Some(0)
    else match FirstFree(dir[1..]) case Some(i) => Some(i + 1) case None => None
  }

  lemma {:induction false} FirstFreeUnique(dir: Directory, k: nat)
    requires k < |dir| && !IsFile(dir[k]) && forall i :: 0 <= i < k ==> IsFile(dir[i])
    ensures FirstFree(dir) == Some(k)
  {
    if k > 0 { FirstFreeUnique(dir[1..], k - 1); }
  }

  /** What create counts: nothing when the end marker is missing. */
  function Counted(dir: Directory): (n: nat) { if HasEnd(dir) then Used(dir) else 0 }

  predicate Names(dir: Directory, i: int, name: string) { 0 <= i < Used(dir) && IsFile(dir[i]) && dir[i].name == name }

  /** findfile: the first record with that name. */
  function Find(dir: Directory, name: string): (r: Option<nat>)
    ensures r.Some? ==> Names(dir, r.value, name) && forall i :: 0 <= i < r.value ==> !Names(dir, i, name)
    ensures r.None? ==> forall i :: !Names(dir, i, name)
  {
    FindFrom(dir, name, 0)
  }

  function FindFrom(dir: Directory, name: string, k: nat): (r: Option<nat>)
    requires k <= Used(dir)
    ensures r.Some? ==> k <= r.value && Names(dir, r.value, name) && forall i :: k <= i < r.value ==> !Names(dir, i, name)
    ensures r.None? ==> forall i :: k <= i ==> !Names(dir, i, name)
    decreases Used(dir) - k
  {
    if k == Used(dir) then None
    else if IsFile(dir[k]) && dir[k].name == name then Some(k)
    else FindFrom(dir, name, k + 1)
  }

  lemma FindUnique(dir: Directory, name: string, r: Option<nat>)
    requires r.Some? ==> Names(dir, r.value, name) && forall i :: 0 <= i < r.value ==> !Names(dir, i, name)
    requires r.None? ==> forall i :: !Names(dir, i, name)
    ensures Find(dir, name) == r
  {
    var f := Find(dir, name);
    assert f.Some? ==> Names(dir, f.value, name);
    assert r.Some? ==> Names(dir, r.value, name);
  }

  // ---- blocks ----------------------------------------------------------------------------

  predicate Covers(e: Entry, b: int) { IsFile(e) && e.start <= b < e.start + e.reserved }

  ghost predicate Taken(rs: seq<Entry>, b: int) { exists e :: e in rs && Covers(e, b) }

  /** Blocks s .. s+n are data blocks, none of them in a file. */
  ghost predicate FreeRun(rs: seq<Entry>, last: u64, s: int, n: nat) {
    1 <= s && s + n <= last && forall b :: s <= b < s + n ==> !Taken(rs, b)
  }

  ghost predicate Fits(rs: seq<Entry>, last: u64, n: nat) { exists s :: FreeRun(rs, last, s, n) }

  /** The lowest place for n blocks. */
  ghost predicate Lowest(rs: seq<Entry>, last: u64, s: int, n: nat) {
    FreeRun(rs, last, s, n) && forall t :: t < s ==> !FreeRun(rs, last, t, n)
  }

  /** The record's extent is a non-empty part of the data blocks 1 .. last. */
  predicate InRange(e: Entry, last: u64) { 1 <= e.start && 1 <= e.reserved && e.start + e.reserved <= last }

  predicate Apart(a: Entry, b: Entry) { a.start + a.reserved <= b.start || b.start + b.reserved <= a.start }

  predicate Disjoint(rs: seq<Entry>) {
    forall i, j :: 0 <= i < j < |rs| && IsFile(rs[i]) && IsFile(rs[j]) ==> Apart(rs[i], rs[j])
  }

  predicate Placed(rs: seq<Entry>, last: u64) {
    (forall i :: 0 <= i < |rs| && IsFile(rs[i]) ==> InRange(rs[i], last)) && Disjoint(rs)
  }

  predicate DistinctNames(rs: seq<Entry>) {
    forall i, j :: 0 <= i < j < |rs| && IsFile(rs[i]) && IsFile(rs[j]) ==> rs[i].name != rs[j].name
  }

  function Records(dir: Directory): seq<Entry> { dir[..Used(dir)] }

  /** Files lie apart from each other and off the first and last block, under different names. */
  predicate Layout(dir: Directory, last: u64) { Placed(Records(dir), last) && DistinctNames(Records(dir)) }

  /** Deleted records still hold the extent of the file that was there. */
  predicate StaleInRange(dir: Directory, last: u64) {
    forall i :: 0 <= i < Used(dir) && IsDeleted(dir[i]) ==> InRange(dir[i], last)
  }

  // ---- the sorted copy -------------------------------------------------------------------

  /** The C conversion of an unsigned 64-bit difference to int. */
  function ToInt(x: u64): (r: int) {
    var low := x % 0x1_0000_0000;
    if low < 0x8000_0000 then low else low - 0x1_0000_0000
  }

  /** StartingBlockCmp. */
  function StartingBlockCmp(a: Entry, b: Entry): int {
    if IsDeleted(a) then 1
    else if IsDeleted(b) then -1
    else ToInt(Minus(a.start, b.start))
  }

  /** Files by starting block, then the deleted records. */
  predicate Ordered(a: Entry, b: Entry) { IsDeleted(b) || (!IsDeleted(a) && a.start <= b.start) }

  predicate Small(rs: seq<Entry>) { forall i :: 0 <= i < |rs| && !IsDeleted(rs[i]) ==> rs[i].start < 0x8000_0000 }

  /** The truncation to int never changes the answer on a disk of fewer than 2^31 blocks. */
  lemma CmpSign(a: Entry, b: Entry)
    requires !IsDeleted(a) ==> a.start < 0x8000_0000
    requires !IsDeleted(b) ==> b.start < 0x8000_0000
    ensures StartingBlockCmp(a, b) <= 0 ==> Ordered(a, b)
    ensures StartingBlockCmp(a, b) > 0 ==> Ordered(b, a)
  {
    if !IsDeleted(a) && !IsDeleted(b) && a.start < b.start {
      assert Minus(a.start, b.start) == 0xFFFF_FFFF * 0x1_0000_0000 + (a.start - b.start + 0x1_0000_0000);
    }
  }

  predicate Sorted(rs: seq<Entry>) { forall i, j :: 0 <= i < j < |rs| ==> Ordered(rs[i], rs[j]) }

  /** All that create needs of qsort: the same records, files by start, deleted ones in any order last. */
  ghost predicate Arranged(out: seq<Entry>, rs: seq<Entry>) { Sorted(out) && multiset(out) == multiset(rs) }

  /** Stands for the library's qsort with StartingBlockCmp. */
  function QSort(rs: seq<Entry>): (out: seq<Entry>)
    requires Small(rs)
    ensures Arranged(out, rs)
  {
    if rs == [] then []
    else
      var rest := QSort(rs[1..]);
      SmallSame(rest, rs[1..]);
      assert rs == [rs[0]] + rs[1..];
      Insert(rs[0], rest)
  }

  lemma SmallSame(out: seq<Entry>, rs: seq<Entry>)
    requires multiset(out) == multiset(rs) && Small(rs)
    ensures Small(out)
  {
    forall i | 0 <= i < |out| && !IsDeleted(out[i]) ensures out[i].start < 0x8000_0000 {
      assert out[i] in multiset(rs);
    }
  }

  function Insert(x: Entry, rs: seq<Entry>): (out: seq<Entry>)
    requires Sorted(rs) && Small(rs) && (!IsDeleted(x) ==> x.start < 0x8000_0000)
    ensures Arranged(out, [x] + rs)
  {
    if rs == [] then [x]
    else
      CmpSign(x, rs[0]);
      if StartingBlockCmp(x, rs[0]) <= 0 then
        InsertHere(x, rs);
        [x] + rs
      else
        var rest := Insert(x, rs[1..]);
        InsertLater(x, rs, rest);
        [rs[0]] + rest
  }

  lemma InsertHere(x: Entry, rs: seq<Entry>)
    requires rs != [] && Sorted(rs) && Ordered(x, rs[0])
    ensures Sorted([x] + rs)
  {
    forall j | 0 <= j < |rs| ensures Ordered(x, rs[j]) {
      assert j > 0 ==> Ordered(rs[0], rs[j]);
    }
  }

  lemma InsertLater(x: Entry, rs: seq<Entry>, rest: seq<Entry>)
    requires rs != [] && Sorted(rs) && Ordered(rs[0], x) && Arranged(rest, [x] + rs[1..])
    ensures Arranged([rs[0]] + rest, [x] + rs)
  {
    forall j | 0 <= j < |rest| ensures Ordered(rs[0], rest[j]) {
      assert rest[j] in multiset(rest);
      assert rest[j] in [x] + rs[1..];
    }
    assert rs == [rs[0]] + rs[1..];
  }

  // ---- create and delete on directories --------------------------------------------------

  /** The least number of 2 MiB blocks that hold `mib` MiB. */
  function Requested(mib: nat): (n: nat)
    ensures 2 * n >= mib && n <= mib && (forall k: nat :: 2 * k >= mib ==> n <= k)
  {
    (if mib % 2 != 0 then mib + 1 else mib) / 2
  }

  datatype Outcome = Exists | NoEntry | NoSpace | Created(slot: nat, start: u64)

  /** A deleted record whose stale end leaves n blocks before the last one. */
  predicate StaleFits(e: Entry, last: u64, n: nat) { IsDeleted(e) && Minus(last, Stop(e)) >= n }

  /** What the gap scan answers (0 for no space): the lowest free run if there is one; otherwise the
      stale end of some deleted record. */
  ghost predicate ScanAnswer(rs: seq<Entry>, last: u64, n: nat, start: u64) {
    if Fits(rs, last, n) then Lowest(rs, last, start, n)
    else if exists e :: e in rs && StaleFits(e, last, n) then exists e :: e in rs && StaleFits(e, last, n) && start == Stop(e)
    else start == 0
  }

  /** The directory with the new record, and the end marker moved on if it was overwritten. */
  function Written(dir: Directory, slot: nat, e: Entry): Directory
    requires slot < |dir|
  {
    var d := dir[slot := e];
    if slot == Counted(dir) && slot + 1 < |dir| then d[slot + 1 := d[slot + 1].(name := "")] else d
  }

  /** create(name, mib) on `dir` may answer `out` and leave `after`. */
  ghost predicate CreateStep(dir: Directory, last: u64, name: string, n: u64, out: Outcome, after: Directory) {
    if Find(dir, name).Some? then out == Exists && after == dir
    else if FirstFree(dir).None? then out == NoEntry && after == dir
    else exists start: u64 :: ScanAnswer(dir[..Counted(dir)], last, n, start) && Recorded(dir, name, n, start, out, after)
  }

  /** The free record filled in, unless the scan answered 0. */
  predicate Recorded(dir: Directory, name: string, n: u64, start: u64, out: Outcome, after: Directory)
    requires FirstFree(dir).Some?
  {
    var slot := FirstFree(dir).value;
    if start == 0 then out == NoSpace && after == dir
    else out == Created(slot, start) && after == Written(dir, slot, Entry(name, start, n, 0))
  }

  /** delete(name) on `dir`: the first byte of the name becomes 0x01. */
  function Deleted(dir: Directory, name: string): Directory {
    match Find(dir, name)
    case Some(i) => dir[i := dir[i].(name := dir[i].name[0 := 1 as char])]
    case None => dir
  }
}
