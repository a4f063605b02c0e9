/**
  The on-disk table of fixed-size entries.  Each file holds 2048 entries: a header
  of 16-bit slot numbers, then the records in the order in which they were first
  written.  A bitmap tells which files exist.
 */
module DiskTable {

  import opened Bytes
  import opened Options
  import opened Counting

  type Word16 = v: nat | v < 0x1_0000

  const ENTRIES_PER_FILE := 2048
  const NEVER_WRITTEN: Word16 := 0xffff
  const EMPTY_ENTRY: Word16 := 0x8000

  datatype File = File(header: seq<Word16>, body: seq<byte>)

  datatype Errno = ERANGE | ENOMEM | EIO | EOTHER

  datatype Reply = Length(count: nat, data: seq<byte>) | NoData | Failed(errno: Errno)

  /**
    How the system calls of one operation turn out.  A data write may be cut short; a write
    of a whole header that fails may have stored its first `words` words, and a flush of
    the bitmap that fails its first `flushed` bytes; `record` is the read of a record.
   */
  datatype Outcome = Outcome(open: bool, memory: bool, read: bool, stat: bool, header: bool, written: nat, flush: bool, flushed: nat,
                             words: nat, record: bool) {
    /** Everything goes well but perhaps the flush of the bitmap, whose result is ignored. */
    predicate Works(size: nat) {
      open && memory && read && stat && header && written >= size
    }

    predicate Clean(size: nat) {
      Works(size) && flush
    }
  }

  // --------------------------------------------------------------------- one file

  /** The slot in a header word that is not NEVER_WRITTEN. */
  function Slot(v: Word16): nat {
    if v >= EMPTY_ENTRY then v - EMPTY_ENTRY else v
  }

  function Records(f: File, size: nat): nat
    requires size > 0
  {
    |f.body| / size
  }

  function Offset(slot: nat, size: nat): nat {
    slot * size
  }

  /** The record in a slot; short or empty when the file ends before it does. */
  function Record(f: File, size: nat, slot: nat): seq<byte> {
    var off := Offset(slot, size);
    if off + size <= |f.body| then f.body[off..off + size] else []
  }

  /** pwrite: a gap between the end of the file and `off` reads as zeroes. */
  function Pwrite(body: seq<byte>, off: nat, data: seq<byte>): seq<byte> {
    if off > |body| then body + seq(off - |body|, i => 0) + data
    else if off + |data| <= |body| then body[..off] + data + body[off + |data|..]
    else body[..off] + data
  }

  ghost predicate Owned(f: File, slot: nat) {
    exists i :: 0 <= i < |f.header| && f.header[i] != NEVER_WRITTEN && Slot(f.header[i]) == slot
  }

  /** Header words map the entries ever written one to one onto the slots 0..n-1. */
  ghost predicate Sound(f: File, size: nat)
    requires size > 0
  {
    && |f.header| == ENTRIES_PER_FILE
    && |f.body| % size == 0
    && (forall i :: 0 <= i < |f.header| && f.header[i] != NEVER_WRITTEN ==> Slot(f.header[i]) < Records(f, size))
    && (forall i, j :: 0 <= i < j < |f.header| && f.header[i] != NEVER_WRITTEN && f.header[j] != NEVER_WRITTEN ==>
          Slot(f.header[i]) != Slot(f.header[j]))
    && (forall s: nat :: s < Records(f, size) ==> Owned(f, s))
  }

  /** What a file holds for an entry: nothing if it was never written or has been released. */
  function Lookup(f: File, size: nat, i: nat): Option<seq<byte>> {
    if i < |f.header| && f.header[i] < EMPTY_ENTRY then Some(Record(f, size, f.header[i])) else None
  }

  /** The slot for a new entry, after the three sanity checks on the size of the file. */
  function AppendSlot(f: File, size: nat): Option<nat>
    requires size > 0
  {
    if |f.header| < ENTRIES_PER_FILE || |f.body| % size != 0 || Records(f, size) >= ENTRIES_PER_FILE then None
    else Some(Records(f, size))
  }

  /** A new entry: its header word, then as much of its data as gets written. */
  function Appended(f: File, size: nat, i: nat, data: seq<byte>): File
    requires size > 0 && i < |f.header| && Records(f, size) < ENTRIES_PER_FILE
  {
    File(f.header[i := Records(f, size)], Pwrite(f.body, Offset(Records(f, size), size), data))
  }

  function Overwritten(f: File, size: nat, i: nat, data: seq<byte>): File
    requires i < |f.header|
  {
    File(f.header, Pwrite(f.body, Offset(Slot(f.header[i]), size), data))
  }

  /** A new file: a header with one entry in slot 0. */
  function Created(i: nat, body: seq<byte>): File
    requires i < ENTRIES_PER_FILE
  {
    File(seq(ENTRIES_PER_FILE, _ => NEVER_WRITTEN)[i := 0], body)
  }

  /** A new header of which only the first words were written over what was there. */
  function HalfCreated(f: File, i: nat, words: nat): (g: File)
    requires i < ENTRIES_PER_FILE
    ensures g.body == f.body
  {
    var whole := Created(i, f.body).header;
    if words >= |whole| then File(whole, f.body)
    else File(whole[..words] + (if words < |f.header| then f.header[words..] else []), f.body)
  }

  // ------------------------------------------------------------------- arithmetic

  lemma SlotFits(length: nat, size: nat, slot: nat)
    requires size > 0 && slot < length / size
    ensures Offset(slot, size) + size <= length
  {
    assert (slot + 1) * size <= (length / size) * size <= length;
  }

  lemma SlotsApart(size: nat, a: nat, b: nat)
    requires a < b
    ensures Offset(a, size) + size <= Offset(b, size)
  {
    assert (a + 1) * size <= b * size;
  }

  lemma EndOfFile(length: nat, size: nat)
    requires size > 0 && length % size == 0
    ensures Offset(length / size, size) == length
    ensures (length + size) / size == length / size + 1 && (length + size) % size == 0
  {
    var n := length / size;
    assert length == n * size;
    assert length + size == (n + 1) * size;
    Divides(length + size, n + 1, size);
  }

  lemma Divides(length: nat, n: nat, size: nat)
    requires size > 0 && length == Offset(n, size)
    ensures length / size == n && length % size == 0
  {
    var q, r := length / size, length % size;
    assert length == Offset(q, size) + r;
    if q < n { SlotsApart(size, q, n); }
    if n < q { SlotsApart(size, n, q); }
  }

  // ------------------------------------------------------------------- pigeonhole

  ghost predicate Covers(f: File, entries: set<nat>, slot: nat) {
    exists i :: i in entries && i < |f.header| && Slot(f.header[i]) == slot
  }

  /** Entries onto n slots: there are at least n of them. */
  lemma {:induction false} OntoCounts(f: File, entries: set<nat>, n: nat)
    requires forall s: nat :: s < n ==> Covers(f, entries, s)
    ensures n <= |entries|
  {
    if n > 0 {
      var last: nat := n - 1;
      assert Covers(f, entries, last);
      var i :| i in entries && i < |f.header| && Slot(f.header[i]) == last;
      forall s: nat | s < last ensures Covers(f, entries - {i}, s) {
        assert Covers(f, entries, s);
        var j :| j in entries && j < |f.header| && Slot(f.header[j]) == s;
        assert j in entries - {i};
      }
      OntoCounts(f, entries - {i}, last);
    }
  }

  /** A file with an entry never written has room for it: none of the size checks can fail. */
  lemma RoomToAppend(f: File, size: nat, i: nat)
    requires size > 0 && Sound(f, size) && i < ENTRIES_PER_FILE && f.header[i] == NEVER_WRITTEN
    ensures AppendSlot(f, size) == Some(Records(f, size))
  {
    hide UpTo;
    var others := UpTo(|f.header|) - {i};
    assert |others| == ENTRIES_PER_FILE - 1;
    OthersCover(f, size, i, others);
    OntoCounts(f, others, Records(f, size));
  }

  /** The slots belong to entries other than one never written. */
  lemma OthersCover(f: File, size: nat, i: nat, others: set<nat>)
    requires size > 0 && Sound(f, size) && i < ENTRIES_PER_FILE && f.header[i] == NEVER_WRITTEN
    requires forall j: nat :: j < ENTRIES_PER_FILE && j != i ==> j in others
    ensures forall s: nat :: s < Records(f, size) ==> Covers(f, others, s)
  {
    forall s: nat | s < Records(f, size) ensures Covers(f, others, s) {
      assert Owned(f, s);
      var j :| 0 <= j < |f.header| && f.header[j] != NEVER_WRITTEN && Slot(f.header[j]) == s;
      assert j in others;
    }
  }

  // ------------------------------------------------------- what writes do to a file

  /** Overwriting a record in full or in part touches no other record. */
  lemma OtherRecord(f: File, g: File, size: nat, slot: nat, other: nat, data: seq<byte>)
    requires size > 0 && |data| <= size && slot != other
    requires slot <= Records(f, size) && other < Records(f, size)
    requires slot == Records(f, size) ==> |f.body| % size == 0
    requires g.body == Pwrite(f.body, Offset(slot, size), data)
    ensures Record(g, size, other) == Record(f, size, other)
  {
    SlotFits(|f.body|, size, other);
    if slot == Records(f, size) {
      EndOfFile(|f.body|, size);
    } else {
      SlotFits(|f.body|, size, slot);
      if slot < other { SlotsApart(size, slot, other); } else { SlotsApart(size, other, slot); }
    }
  }

  /** An append done in full keeps the header one to one, stores the entry and no other. */
  lemma AppendWorks(f: File, size: nat, i: nat, data: seq<byte>)
    requires size > 0 && Sound(f, size) && i < ENTRIES_PER_FILE && f.header[i] == NEVER_WRITTEN
    requires |data| == size && Records(f, size) < ENTRIES_PER_FILE
    ensures Sound(Appended(f, size, i, data), size)
    ensures Lookup(Appended(f, size, i, data), size, i) == Some(data)
  {
    var g, n := Appended(f, size, i, data), Records(f, size);
    EndOfFile(|f.body|, size);
    assert Records(g, size) == n + 1;
    assert Record(g, size, n) == data;
    forall s: nat | s < n + 1 ensures Owned(g, s) {
      if s == n {
        assert g.header[i] == n;
      } else {
        assert Owned(f, s);
        var j :| 0 <= j < |f.header| && f.header[j] != NEVER_WRITTEN && Slot(f.header[j]) == s;
        assert g.header[j] == f.header[j];
      }
    }
  }

  /** Cut short, it leaves a header word whose slot is not in the file. */
  lemma ShortAppendBreaks(f: File, size: nat, i: nat, data: seq<byte>)
    requires size > 0 && Sound(f, size) && i < ENTRIES_PER_FILE && f.header[i] == NEVER_WRITTEN
    requires |data| < size && Records(f, size) < ENTRIES_PER_FILE
    ensures !Sound(Appended(f, size, i, data), size)
    ensures Lookup(Appended(f, size, i, data), size, i) == Some([])
  {
    var g, n := Appended(f, size, i, data), Records(f, size);
    EndOfFile(|f.body|, size);
    assert g.header[i] == n && |g.body| < Offset(n, size) + size;
    if Sound(g, size) {
      assert Slot(g.header[i]) < Records(g, size);
      SlotFits(|g.body|, size, n);
    }
  }

  lemma AppendElsewhere(f: File, size: nat, i: nat, data: seq<byte>, j: nat)
    requires size > 0 && Sound(f, size) && i < ENTRIES_PER_FILE && j != i
    requires |data| <= size && Records(f, size) < ENTRIES_PER_FILE
    ensures Lookup(Appended(f, size, i, data), size, j) == Lookup(f, size, j)
  {
    if j < |f.header| && f.header[j] < EMPTY_ENTRY {
      OtherRecord(f, Appended(f, size, i, data), size, Records(f, size), f.header[j], data);
    }
  }

  lemma OverwriteWorks(f: File, size: nat, i: nat, data: seq<byte>)
    requires size > 0 && Sound(f, size) && i < ENTRIES_PER_FILE && f.header[i] < EMPTY_ENTRY
    requires |data| <= size
    ensures Sound(Overwritten(f, size, i, data), size)
    ensures |Record(f, size, f.header[i])| == size
    ensures Lookup(Overwritten(f, size, i, data), size, i) == Some(data + Record(f, size, f.header[i])[|data|..])
    ensures |data| == size ==> Lookup(Overwritten(f, size, i, data), size, i) == Some(data)
  {
    var g := Overwritten(f, size, i, data);
    SlotFits(|f.body|, size, f.header[i]);
    assert |g.body| == |f.body|;
    assert Record(g, size, f.header[i]) == data + Record(f, size, f.header[i])[|data|..];
    forall s: nat | s < Records(g, size) ensures Owned(g, s) {
      assert Owned(f, s);
    }
  }

  lemma RecordIsComplete(f: File, size: nat, i: nat)
    requires size > 0 && Sound(f, size) && i < ENTRIES_PER_FILE && f.header[i] < EMPTY_ENTRY
    ensures |Record(f, size, f.header[i])| == size
  {
    SlotFits(|f.body|, size, f.header[i]);
  }

  lemma OverwriteElsewhere(f: File, size: nat, i: nat, data: seq<byte>, j: nat)
    requires size > 0 && Sound(f, size) && i < ENTRIES_PER_FILE && f.header[i] < EMPTY_ENTRY && j != i
    requires |data| <= size
    ensures Lookup(Overwritten(f, size, i, data), size, j) == Lookup(f, size, j)
  {
    if j < |f.header| && f.header[j] < EMPTY_ENTRY {
      OtherRecord(f, Overwritten(f, size, i, data), size, f.header[i], f.header[j], data);
    }
  }

  /** Clearing the released mark keeps the header one to one and brings the old record back. */
  lemma UnreleaseKeepsSound(f: File, size: nat, i: nat)
    requires size > 0 && Sound(f, size) && i < ENTRIES_PER_FILE
    requires EMPTY_ENTRY <= f.header[i] < NEVER_WRITTEN
    ensures Sound(f.(header := f.header[i := Slot(f.header[i])]), size)
  {
    var g := f.(header := f.header[i := Slot(f.header[i])]);
    forall s: nat | s < Records(g, size) ensures Owned(g, s) {
      assert Owned(f, s);
      var j :| 0 <= j < |f.header| && f.header[j] != NEVER_WRITTEN && Slot(f.header[j]) == s;
      assert Slot(g.header[j]) == s;
    }
  }

  lemma CreateWorks(size: nat, i: nat, data: seq<byte>)
    requires size > 0 && i < ENTRIES_PER_FILE && |data| == size
    ensures Sound(Created(i, data), size)
    ensures Lookup(Created(i, data), size, i) == Some(data)
    ensures forall j: nat :: j != i ==> Lookup(Created(i, data), size, j) == None
  {
    var g := Created(i, data);
    assert Offset(0, size) == 0 && Offset(1, size) == size;
    Divides(size, 1, size);
    assert Record(g, size, 0) == data;
    assert g.header[i] == 0 && Slot(g.header[i]) == 0;
    assert Owned(g, 0);
    assert Records(g, size) == 1;
  }

  /** Whatever the file held, a new header leaves one entry in it, and that one is right. */
  lemma CreateOver(size: nat, i: nat, body: seq<byte>, data: seq<byte>)
    requires size > 0 && i < ENTRIES_PER_FILE && |data| == size
    ensures Lookup(Created(i, Pwrite(body, 0, data)), size, i) == Some(data)
    ensures forall j: nat :: j != i ==> Lookup(Created(i, Pwrite(body, 0, data)), size, j) == None
  {
    var g := Created(i, Pwrite(body, 0, data));
    assert Offset(0, size) == 0 && g.header[i] == 0;
    assert Record(g, size, 0) == data;
  }

  /**
    After an append that stored its header word but none of its data, the next
    append in the same file gets the same slot: both entries are then one record.
   */
  lemma FailedAppendIsShared(f: File, size: nat, i: nat, j: nat, data: seq<byte>)
    requires size > 0 && Sound(f, size) && i < ENTRIES_PER_FILE && f.header[i] == NEVER_WRITTEN
    requires j < ENTRIES_PER_FILE && j != i && f.header[j] == NEVER_WRITTEN && |data| == size
    requires Records(f, size) < ENTRIES_PER_FILE
    ensures var g := Appended(f, size, i, []);
            && AppendSlot(g, size) == Some(Records(f, size))
            && Lookup(Appended(g, size, j, data), size, i) == Lookup(Appended(g, size, j, data), size, j) == Some(data)
  {
    EndOfFile(|f.body|, size);
    var g := Appended(f, size, i, []);
    assert g.body == f.body;
    var h := Appended(g, size, j, data);
    assert h.header[i] == h.header[j] == Records(f, size);
    assert h.body == f.body + data;
    assert Record(h, size, Records(f, size)) == data;
  }

  // -------------------------------------------------------------------- the table

  function FileOf(entry: nat): nat {
    entry / ENTRIES_PER_FILE
  }

  function IndexOf(entry: nat): (i: nat)
    ensures i < ENTRIES_PER_FILE
  {
    entry % ENTRIES_PER_FILE
  }

  /** What the table holds for an entry. */
  ghost function View(bitmap: seq<bool>, files: map<nat, File>, size: nat, entry: nat): Option<seq<byte>> {
    var k := FileOf(entry);
    if k < |bitmap| && bitmap[k] && k in files then Lookup(files[k], size, IndexOf(entry)) else None
  }

  /** Announced files are sound; a file that is not announced holds no complete record. */
  ghost predicate AllSound(bitmap: seq<bool>, files: map<nat, File>, size: nat)
    requires size > 0
  {
    forall k :: k in files && k < |bitmap| ==> if bitmap[k] then Sound(files[k], size) else |files[k].body| < size
  }

  /** On the files that exist, the bitmap on disk agrees with the one in memory. */
  ghost predicate Synchronized(bitmap: seq<bool>, saved: seq<bool>, files: map<nat, File>) {
    && |saved| == |bitmap|
    && forall k :: k in files && k < |bitmap| ==> bitmap[k] == saved[k]
  }

  /** Writing to entry `entry` of one file changes that entry and no other. */
  lemma OnlyThatEntry(bitmap: seq<bool>, files: map<nat, File>, size: nat, entry: nat, g: File)
    requires FileOf(entry) < |bitmap|
    requires forall j: nat :: j < ENTRIES_PER_FILE && j != IndexOf(entry) ==>
      Lookup(g, size, j) == if bitmap[FileOf(entry)] && FileOf(entry) in files then Lookup(files[FileOf(entry)], size, j) else None
    ensures var k := FileOf(entry);
            && View(bitmap[k := true], files[k := g], size, entry) == Lookup(g, size, IndexOf(entry))
            && forall e: nat :: e != entry ==> View(bitmap[k := true], files[k := g], size, e) == View(bitmap, files, size, e)
  {
    forall e: nat | e != entry
      ensures View(bitmap[FileOf(entry) := true], files[FileOf(entry) := g], size, e) == View(bitmap, files, size, e)
    {
      if FileOf(e) == FileOf(entry) {
        assert IndexOf(e) != IndexOf(entry);
      }
    }
  }

  /** The entry with this index in this file. */
  function EntryAt(k: nat, i: nat): nat {
    k * ENTRIES_PER_FILE + i
  }

  lemma EntryParts(k: nat, i: nat)
    requires i < ENTRIES_PER_FILE
    ensures FileOf(EntryAt(k, i)) == k && IndexOf(EntryAt(k, i)) == i
  {}

  /** No entry of the file can be read. */
  ghost predicate Invisible(f: File, size: nat) {
    forall i: nat :: i < ENTRIES_PER_FILE ==> Lookup(f, size, i) == None
  }

  /** Two bitmaps show the same contents if and only if they differ on files without a visible entry only. */
  lemma SameViews(bitmap: seq<bool>, other: seq<bool>, files: map<nat, File>, size: nat)
    requires |bitmap| == |other|
    ensures (forall e: nat :: View(other, files, size, e) == View(bitmap, files, size, e)) <==>
      forall k: nat :: k in files && k < |bitmap| && bitmap[k] != other[k] ==> Invisible(files[k], size)
  {
    hide Lookup;
    if forall e: nat :: View(other, files, size, e) == View(bitmap, files, size, e) {
      forall k: nat, i: nat | k in files && k < |bitmap| && bitmap[k] != other[k] && i < ENTRIES_PER_FILE
        ensures Lookup(files[k], size, i) == None
      {
        EntryParts(k, i);
        assert View(other, files, size, EntryAt(k, i)) == View(bitmap, files, size, EntryAt(k, i));
      }
    }
  }

  /** No other file than g comes, goes or changes. */
  ghost predicate SameElsewhere(files: map<nat, File>, files': map<nat, File>, g: nat) {
    && files'.Keys - {g} == files.Keys - {g}
    && forall k :: k in files && k in files' && k != g ==> files'[k] == files[k]
  }

  /** A record of which the first n bytes were written over. */
  function Overlaid(record: seq<byte>, data: seq<byte>, n: nat): seq<byte>
    requires |record| == |data|
  {
    if n < |data| then data[..n] + record[n..] else data
  }

  lemma OverlaidIs(record: seq<byte>, data: seq<byte>, n: nat)
    requires |record| == |data|
    ensures n < |data| ==> data[..n] + record[n..] == Overlaid(record, data, n)
    ensures n >= |data| ==> data[..|data|] + record[|data|..] == Overlaid(record, data, n) == data
  {}

  lemma SameFiles(files: map<nat, File>, g: nat)
    ensures SameElsewhere(files, files, g)
  {}

  /** No file is announced beyond the bitmap, and what is not announced is not seen. */
  lemma OutOfRange(bitmap: seq<bool>, files: map<nat, File>, size: nat, entry: nat)
    ensures FileOf(entry) >= |bitmap| || !bitmap[FileOf(entry)] || FileOf(entry) !in files ==> View(bitmap, files, size, entry) == None
  {}

  /** The first n bits of the bitmap are on disk, in front of what was there. */
  ghost predicate SavedAs(saved: seq<bool>, saved': seq<bool>, bitmap: seq<bool>, n: nat) {
    && |saved| == |saved'| == |bitmap|
    && forall k :: 0 <= k < |bitmap| ==> saved'[k] == if k < n then bitmap[k] else saved[k]
  }

  class Table {
    const size: nat           // bytes of an entry
    var bitmap: seq<bool>     // which files exist, in memory
    var dirty: bool
    var saved: seq<bool>      // the bitmap file; all clear while there is none
    var files: map<nat, File>

    /** The two bitmaps are in order; nothing is known of the files. */
    ghost predicate Basic()
      reads this
    {
      size > 0 && |saved| == |bitmap| && (!dirty ==> saved == bitmap)
    }

    ghost predicate Valid()
      reads this
    {
      Basic() && AllSound(bitmap, files, size)
    }

    ghost function At(entry: nat): Option<seq<byte>>
      reads this
    {
      View(bitmap, files, size, entry)
    }

    ghost predicate Durable()
      reads this
    {
      Synchronized(bitmap, saved, files)
    }

    /** The bitmap has one bit for each of bitmapSize * 8 files. */
    constructor (size: nat, bitmapSize: nat)
      requires size > 0
      ensures Valid() && Durable() && this.size == size && |bitmap| == bitmapSize * 8
      ensures forall e: nat :: At(e) == None
    {
      this.size := size;
      bitmap := seq(bitmapSize * 8, _ => false);
      saved := seq(bitmapSize * 8, _ => false);
      dirty := false;
      files := map[];
    }

    method BitmapUpdate(k: nat, present: bool)
      requires k < |bitmap|
      modifies this`bitmap, this`dirty
      ensures bitmap == old(bitmap)[k := present]
      ensures dirty == (old(dirty) || old(bitmap[k]) != present)
    {
      if bitmap[k] != present {
        bitmap := bitmap[k := present];
        dirty := true;
      }
    }

    method BitmapFlush(ok: bool, written: nat)
      requires |saved| == |bitmap| && (!dirty ==> saved == bitmap)
      modifies this`saved, this`dirty
      ensures ok ==> saved == bitmap && !dirty
      ensures !ok ==> dirty == old(dirty) && |saved| == |bitmap|
      ensures !ok ==> SavedAs(old(saved), saved, bitmap, 8 * written)
    {
      if !dirty { return; }
      if ok {
        saved := bitmap;
        dirty := false;
      } else {
        var n := if 8 * written < |bitmap| then 8 * written else |bitmap|;
        saved := bitmap[..n] + saved[n..];
      }
    }

    /**
      A restart keeps nothing but the files and the bitmap on disk.  It keeps the contents
      if and only if no file whose bit differs from the one on disk has a visible entry.
     */
    method Restart()
      requires Basic()
      modifies this`bitmap, this`dirty
      ensures bitmap == saved && !dirty && Basic()
      ensures (forall e: nat :: At(e) == old(At(e))) <==>
        forall k: nat :: k in files && k < |saved| && old(bitmap)[k] != saved[k] ==> Invisible(files[k], size)
      ensures old(Durable()) ==> Durable() && (old(Valid()) ==> Valid()) && forall e: nat :: At(e) == old(At(e))
      ensures Valid() <==> AllSound(saved, files, size)
    {
      SameViews(bitmap, saved, files, size);
      bitmap := saved;
      dirty := false;
      assert forall e: nat :: At(e) == View(saved, files, size, e) && old(At(e)) == View(old(bitmap), files, size, e);
    }

    method Read(entry: nat, io: Outcome) returns (r: Reply)
      requires Valid()
      modifies this`bitmap, this`dirty
      ensures Valid() && |bitmap| == old(|bitmap|) && (old(Durable()) ==> Durable())
      ensures forall e: nat :: At(e) == old(At(e))
      ensures FileOf(entry) >= |bitmap| ==> r == Failed(ERANGE)
      ensures FileOf(entry) < |bitmap| && io.open && io.read && io.record ==>
        r == match At(entry) { case Some(data) => Length(size, data) case None => NoData }
      ensures r.Length? ==> At(entry) == Some(r.data) && r.count == |r.data| == size
      ensures r.NoData? ==> At(entry) == None
      ensures r.Failed? <==> FileOf(entry) >= |bitmap| || (old(bitmap)[FileOf(entry)] && FileOf(entry) in files && CannotRead(entry, io))
      ensures bitmap == if FileOf(entry) < |old(bitmap)| && FileOf(entry) !in files then old(bitmap)[FileOf(entry) := false] else old(bitmap)
      ensures dirty == (old(dirty) || bitmap != old(bitmap))
    {
      hide Sound, Record;
      var k, i := FileOf(entry), IndexOf(entry);
      if k >= |bitmap| { return Failed(ERANGE); }
      if !bitmap[k] { return NoData; }
      if k !in files {
        BitmapUpdate(k, false);
        return NoData;
      }
      if !io.open { return Failed(EOTHER); }
      var f := files[k];
      SoundWhere(bitmap, files, size, k);
      if !io.read { return Failed(EIO); }
      var v := f.header[i];
      if v == NEVER_WRITTEN || v >= EMPTY_ENTRY { return NoData; }
      if !io.record { return Failed(EIO); }
      RecordIsComplete(f, size, i);
      r := Length(size, Record(f, size, v));
    }

    /** The file or its header cannot be read, or there is a record and that cannot. */
    ghost predicate CannotRead(entry: nat, io: Outcome)
      reads this
    {
      !io.open || !io.read || (!io.record && At(entry).Some?)
    }

    /** The write reports success: every call that its branch makes goes well, and the entry is not released. */
    ghost predicate Succeeds(entry: nat, io: Outcome)
      reads this
    {
      var k, i := FileOf(entry), IndexOf(entry);
      && k < |bitmap| && io.open && io.written >= size
      && if bitmap[k] && k in files then
           var f := files[k];
           io.read && i < |f.header| && (f.header[i] < EMPTY_ENTRY || (f.header[i] == NEVER_WRITTEN && io.stat && io.header))
         else io.memory && io.header
    }

    /** A record that was there holds what the write got to write, in front of what it held. */
    ghost predicate OverlaidIf(entry: nat, data: seq<byte>, io: Outcome, before: Option<seq<byte>>)
      reads this
    {
      before.Some? && |before.value| == |data| && At(entry) == if io.open && io.read then Some(Overlaid(before.value, data, io.written)) else before
    }

    /** A write of a new entry to an existing file whose header word got stored and whose data did not. */
    ghost predicate FailedAppend(entry: nat, io: Outcome)
      reads this
    {
      var k := FileOf(entry);
      && k < |bitmap| && bitmap[k] && k in files
      && IndexOf(entry) < |files[k].header| && files[k].header[IndexOf(entry)] == NEVER_WRITTEN
      && io.open && io.read && io.stat && io.header && io.written < size
    }

    ghost predicate Released(entry: nat)
      reads this
    {
      var k := FileOf(entry);
      && k < |bitmap| && bitmap[k] && k in files
      && IndexOf(entry) < |files[k].header| && EMPTY_ENTRY <= files[k].header[IndexOf(entry)] < NEVER_WRITTEN
    }

    /** The file is not announced: create it, or overwrite its header, with one entry. */
    method WriteNew(entry: nat, data: seq<byte>, io: Outcome) returns (r: Reply)
      requires Basic() && |data| == size && FileOf(entry) < |bitmap| && !bitmap[FileOf(entry)]
      modifies this`bitmap, this`dirty, this`saved, this`files
      ensures Basic() && (old(Valid()) ==> Valid()) && |bitmap| == old(|bitmap|)
      ensures forall e: nat :: e != entry ==> At(e) == old(At(e))
      ensures r.Length? ==> At(entry) == Some(data) && r.count == size
      ensures !r.Length? ==> At(entry) == None
      ensures io.Works(size) ==> r.Length?
      ensures SameElsewhere(old(files), files, FileOf(entry))
      ensures bitmap == if r.Length? then old(bitmap)[FileOf(entry) := true] else old(bitmap)
      ensures r.Length? <==> io.open && io.memory && io.header && io.written >= size
      ensures r.Length? && io.flush ==> saved == bitmap && Durable()
      ensures !io.flush && 8 * io.flushed <= FileOf(entry) ==> saved[FileOf(entry)] == old(saved)[FileOf(entry)]
      ensures SavedAs(old(saved), saved, bitmap, if !r.Length? then 0 else if io.flush then |bitmap| else 8 * io.flushed)
    {
      hide Sound, View, AllSound, Created;
      var k := FileOf(entry);
      ghost var body := if k in files then files[k].body else [];
      Unannounced(bitmap, files, size, entry);
      r := FillNew(entry, data, io);
      if !r.Length? {
        return;
      }
      CreatedTable(old(bitmap), old(files), size, entry, body, data);
      BitmapUpdate(k, true);
      BitmapFlush(io.flush, io.flushed);
    }

    /** Write the header and the record of a file that is not announced yet: nobody sees them. */
    method FillNew(entry: nat, data: seq<byte>, io: Outcome) returns (r: Reply)
      requires Basic() && |data| == size && FileOf(entry) < |bitmap| && !bitmap[FileOf(entry)]
      modifies this`files
      ensures forall e: nat :: View(bitmap, files, size, e) == old(View(bitmap, files, size, e))
      ensures old(AllSound(bitmap, files, size)) && !r.Length? ==> AllSound(bitmap, files, size)
      ensures r.Length? ==> r.count == size && files == old(files)[FileOf(entry) :=
        Created(IndexOf(entry), Pwrite(if FileOf(entry) in old(files) then old(files)[FileOf(entry)].body else [], 0, data))]
      ensures r.Length? <==> io.open && io.memory && io.header && io.written >= size
      ensures SameElsewhere(old(files), files, FileOf(entry))
    {
      hide Sound, View, AllSound, Created;
      var k, i := FileOf(entry), IndexOf(entry);
      if !io.open { return Failed(EOTHER); }
      Unannounced(bitmap, files, size, entry);
      var f := if k in files then files[k] else File([], []);
      var written := if io.written < size then io.written else size;
      var g := Created(i, Pwrite(f.body, 0, data[..written]));
      CreatedBody(i, f.body);
      CreatedBody(i, Pwrite(f.body, 0, data[..written]));
      NobodySees(bitmap, files, size, k, f);
      NobodySees(bitmap, files, size, k, HalfCreated(f, i, io.words));
      NobodySees(bitmap, files, size, k, g);
      files := files[k := f];
      if !io.memory { return Failed(ENOMEM); }
      if !io.header {
        files := files[k := HalfCreated(f, i, io.words)];
        assert files == old(files)[k := HalfCreated(f, i, io.words)];
        return Failed(EIO);
      }
      files := files[k := Created(i, f.body)];
      files := files[k := g];
      assert files == old(files)[k := g];
      if written < size { return Failed(EIO); }
      assert data[..written] == data;
      r := Length(size, data);
    }

    /** The entry was never written: append it, the header word first. */
    method WriteAppend(entry: nat, data: seq<byte>, io: Outcome) returns (r: Reply)
      requires Valid() && |data| == size && io.open && io.read
      requires var k := FileOf(entry); k < |bitmap| && bitmap[k] && k in files
      requires var f := files[FileOf(entry)]; IndexOf(entry) < |f.header| && f.header[IndexOf(entry)] == NEVER_WRITTEN
      modifies this`files
      ensures Valid() <==> !old(FailedAppend(entry, io))
      ensures forall e: nat :: e != entry ==> At(e) == old(At(e))
      ensures r.Length? ==> At(entry) == Some(data) && r.count == size
      ensures io.Works(size) ==> r.Length?
      ensures old(Durable()) ==> Durable()
      ensures old(FailedAppend(entry, io)) ==> r == Failed(EIO) && At(entry) == Some([])
      ensures r.Length? <==> io.stat && io.header && io.written >= size
      ensures !r.Length? && !old(FailedAppend(entry, io)) ==> At(entry) == None
      ensures SameElsewhere(old(files), files, FileOf(entry))
    {
      hide Sound, Lookup, Appended, Record;
      var k, i := FileOf(entry), IndexOf(entry);
      var f := files[k];
      NothingThere(f, size, i);
      if !io.stat { return Failed(EOTHER); }
      SoundWhere(bitmap, files, size, k);
      RoomToAppend(f, size, i);
      var slot := AppendSlot(f, size);
      if !io.header { return Failed(EIO); }
      files := files[k := f.(header := f.header[i := slot.value])];
      var written := if io.written < size then io.written else size;
      files := files[k := File(f.header[i := slot.value], Pwrite(f.body, Offset(slot.value, size), data[..written]))];
      AppendedParts(f, size, i, data[..written]);
      assert files == old(files)[k := Appended(f, size, i, data[..written])];
      AppendedTable(bitmap, old(files), size, entry, data[..written]);
      if written < size { return Failed(EIO); }
      assert data[..written] == data;
      r := Length(size, data);
    }

    /** The entry has a slot: overwrite its record. */
    method WriteOver(entry: nat, data: seq<byte>, io: Outcome) returns (r: Reply)
      requires Valid() && |data| == size
      requires var k := FileOf(entry); k < |bitmap| && bitmap[k] && k in files
      requires var f := files[FileOf(entry)]; IndexOf(entry) < |f.header| && f.header[IndexOf(entry)] < EMPTY_ENTRY
      modifies this`files
      ensures Valid() && (old(Durable()) ==> Durable())
      ensures forall e: nat :: e != entry ==> At(e) == old(At(e))
      ensures r.Length? ==> At(entry) == Some(data) && r.count == size
      ensures r.Length? <==> io.written >= size
      ensures old(At(entry)).Some? && |old(At(entry)).value| == size
      ensures At(entry) == Some(Overlaid(old(At(entry)).value, data, io.written))
      ensures SameElsewhere(old(files), files, FileOf(entry))
    {
      hide Sound, Lookup, Overwritten, Record;
      var k, i := FileOf(entry), IndexOf(entry);
      var f := files[k];
      var written := if io.written < size then io.written else size;
      files := files[k := f.(body := Pwrite(f.body, Offset(f.header[i], size), data[..written]))];
      OverwrittenParts(f, size, i, data[..written]);
      assert files == old(files)[k := Overwritten(f, size, i, data[..written])];
      OverwrittenTable(bitmap, old(files), size, entry, data[..written]);
      OverlaidIs(old(At(entry)).value, data, io.written);
      if written < size { return Failed(EIO); }
      assert data[..written] == data;
      r := Length(size, data);
    }

    lemma NotThere(entry: nat, io: Outcome)
      ensures var k := FileOf(entry);
              k >= |bitmap| || !bitmap[k] || k !in files ==>
                && !Released(entry) && !FailedAppend(entry, io)
                && (Succeeds(entry, io) <==> k < |bitmap| && io.open && io.memory && io.header && io.written >= size)
    {}

    /** A file that is announced and is not there is not announced any more; nothing else changes. */
    method DropAbsent(k: nat)
      requires Basic() && k < |bitmap|
      modifies this`bitmap, this`dirty
      ensures Basic() && bitmap == if k in files then old(bitmap) else old(bitmap)[k := false]
      ensures Valid() <==> old(Valid())
      ensures forall e: nat :: At(e) == old(At(e))
      ensures old(Durable()) ==> Durable()
      ensures forall e: nat :: Released(e) <==> old(Released(e))
      ensures forall e: nat, io: Outcome :: FailedAppend(e, io) <==> old(FailedAppend(e, io))
      ensures forall e: nat, io: Outcome :: Succeeds(e, io) <==> old(Succeeds(e, io))
    {
      hide Sound, Lookup;
      if bitmap[k] && k !in files {
        BitmapUpdate(k, false);
      }
      assert k !in files && !old(bitmap)[k] ==> old(bitmap)[k := false] == old(bitmap);
    }

    /**
      A write that reports success has stored the entry and touched no other; without
      faults every write to an entry that was not released succeeds.  The table stays
      sound unless an append stored its header word and not all of its data.
     */
    method Write(entry: nat, data: seq<byte>, io: Outcome) returns (r: Reply)
      requires Basic() && |data| == size && (Valid() || (FileOf(entry) < |bitmap| && !bitmap[FileOf(entry)]))
      modifies this`bitmap, this`dirty, this`saved, this`files
      ensures Basic() && |bitmap| == old(|bitmap|)
      ensures old(Valid()) ==> (Valid() <==> !old(FailedAppend(entry, io)))
      ensures forall e: nat :: e != entry ==> At(e) == old(At(e))
      ensures r.Length? ==> At(entry) == Some(data) && r.count == size
      ensures FileOf(entry) >= |bitmap| ==> r == Failed(ERANGE) && At(entry) == old(At(entry))
      ensures FileOf(entry) < |bitmap| && io.Works(size) ==> (r.Length? <==> !old(Released(entry)))
      ensures old(Released(entry)) && io.Works(size) ==> r == Failed(EIO) && At(entry).Some? && old(At(entry)) == None
      ensures old(Durable()) && io.Clean(size) ==> Durable()
      ensures r.Length? <==> old(Succeeds(entry, io))
      ensures old(Valid()) && old(At(entry)).Some? ==> OverlaidIf(entry, data, io, old(At(entry)))
      ensures old(At(entry)).None? && !r.Length? && !old(FailedAppend(entry, io)) ==>
        (At(entry).Some? <==> old(Released(entry)) && io.open && io.read && io.header)
      ensures SameElsewhere(old(files), files, FileOf(entry))
      ensures forall k :: 0 <= k < |bitmap| && k != FileOf(entry) ==> bitmap[k] == old(bitmap)[k]
      ensures FileOf(entry) < |bitmap| ==> (bitmap[FileOf(entry)] <==> r.Length? || (old(bitmap)[FileOf(entry)] && FileOf(entry) in old(files)))
      ensures var created := FileOf(entry) < |bitmap| && !(old(bitmap)[FileOf(entry)] && FileOf(entry) in old(files));
              SavedAs(old(saved), saved, bitmap, if !r.Length? || !created then 0 else if io.flush then |bitmap| else 8 * io.flushed)
      ensures FileOf(entry) < |bitmap| && !old(bitmap)[FileOf(entry)] && r.Length? && io.flush ==> saved == bitmap
      ensures !io.flush && 8 * io.flushed <= FileOf(entry) < |bitmap| ==> saved[FileOf(entry)] == old(saved)[FileOf(entry)]
    {
      hide Sound, Lookup, Record, SameElsewhere, Overlaid, View, AllSound, Synchronized, Released, FailedAppend, Succeeds;
      var k := FileOf(entry);
      SameFiles(files, k);
      OutOfRange(bitmap, files, size, entry);
      NotThere(entry, io);
      if k >= |bitmap| { return Failed(ERANGE); }
      DropAbsent(k);
      if !bitmap[k] {
        NotThere(entry, io);
        r := WriteNew(entry, data, io);
        return;
      }
      r := WriteExisting(entry, data, io);
    }

    /** The file is announced and there: append, bring back, or overwrite. */
    method WriteExisting(entry: nat, data: seq<byte>, io: Outcome) returns (r: Reply)
      requires Valid() && |data| == size
      requires var k := FileOf(entry); k < |bitmap| && bitmap[k] && k in files
      modifies this`files
      ensures Valid() <==> !old(FailedAppend(entry, io))
      ensures forall e: nat :: e != entry ==> At(e) == old(At(e))
      ensures r.Length? ==> At(entry) == Some(data) && r.count == size
      ensures io.Works(size) ==> (r.Length? <==> !old(Released(entry)))
      ensures old(Released(entry)) && io.Works(size) ==> r == Failed(EIO) && At(entry).Some? && old(At(entry)) == None
      ensures old(Durable()) ==> Durable()
      ensures r.Length? <==> old(Succeeds(entry, io))
      ensures old(At(entry)).Some? ==> OverlaidIf(entry, data, io, old(At(entry)))
      ensures old(At(entry)).None? && !r.Length? && !old(FailedAppend(entry, io)) ==>
        (At(entry).Some? <==> old(Released(entry)) && io.open && io.read && io.header)
      ensures SameElsewhere(old(files), files, FileOf(entry))
    {
      hide Sound, Lookup, Record;
      var k, i := FileOf(entry), IndexOf(entry);
      var f := files[k];
      SoundWhere(bitmap, files, size, k);
      CompleteIfThere(f, size, i);
      if !io.open { return Failed(EOTHER); }
      if !io.read { return Failed(EIO); }
      var v := f.header[i];
      if v == NEVER_WRITTEN {
        r := WriteAppend(entry, data, io);
        return;
      }
      if v >= EMPTY_ENTRY {
        if io.header {
          files := files[k := f.(header := f.header[i := v - EMPTY_ENTRY])];
          UnreleasedTable(bitmap, old(files), size, entry);
        }
        return Failed(EIO);   // the count of the two bytes written is compared with the size of the header
      }
      r := WriteOver(entry, data, io);
    }
  }

  lemma SoundWhere(bitmap: seq<bool>, files: map<nat, File>, size: nat, k: nat)
    requires size > 0 && AllSound(bitmap, files, size) && k < |bitmap| && bitmap[k] && k in files
    ensures Sound(files[k], size) && |files[k].header| == ENTRIES_PER_FILE
  {}

  lemma AppendedParts(f: File, size: nat, i: nat, data: seq<byte>)
    requires size > 0 && i < |f.header| && Records(f, size) < ENTRIES_PER_FILE
    ensures Appended(f, size, i, data) ==
      File(f.header[i := Records(f, size)], Pwrite(f.body, Offset(Records(f, size), size), data))
  {}

  lemma LookupIsRecord(f: File, size: nat, i: nat)
    requires i < |f.header| && f.header[i] < EMPTY_ENTRY
    ensures Lookup(f, size, i) == Some(Record(f, size, f.header[i]))
  {}

  lemma NothingThere(f: File, size: nat, i: nat)
    requires i < |f.header| && f.header[i] >= EMPTY_ENTRY
    ensures Lookup(f, size, i) == None
  {}

  lemma CompleteIfThere(f: File, size: nat, i: nat)
    requires size > 0 && Sound(f, size) && i < ENTRIES_PER_FILE
    ensures match Lookup(f, size, i)
            case Some(record) => f.header[i] < EMPTY_ENTRY && |record| == size
            case None => f.header[i] >= EMPTY_ENTRY
  {
    if f.header[i] < EMPTY_ENTRY { RecordIsComplete(f, size, i); }
  }

  lemma OverwrittenParts(f: File, size: nat, i: nat, data: seq<byte>)
    requires i < |f.header| && f.header[i] < EMPTY_ENTRY
    ensures Overwritten(f, size, i, data) == f.(body := Pwrite(f.body, Offset(f.header[i], size), data))
  {}

  lemma AppendedTable(bitmap: seq<bool>, files: map<nat, File>, size: nat, entry: nat, data: seq<byte>)
    requires size > 0 && AllSound(bitmap, files, size) && |data| <= size
    requires FileOf(entry) < |bitmap| && bitmap[FileOf(entry)] && FileOf(entry) in files
    requires IndexOf(entry) < |files[FileOf(entry)].header| && files[FileOf(entry)].header[IndexOf(entry)] == NEVER_WRITTEN
    requires Records(files[FileOf(entry)], size) < ENTRIES_PER_FILE
    ensures var k := FileOf(entry); var files' := files[k := Appended(files[k], size, IndexOf(entry), data)];
            && (AllSound(bitmap, files', size) <==> |data| == size)
            && View(bitmap, files', size, entry) == Some(if |data| == size then data else [])
            && forall e: nat :: e != entry ==> View(bitmap, files', size, e) == View(bitmap, files, size, e)
  {
    hide Sound, Lookup, Appended;
    var k, i := FileOf(entry), IndexOf(entry);
    SoundWhere(bitmap, files, size, k);
    if |data| == size { AppendWorks(files[k], size, i, data); } else { ShortAppendBreaks(files[k], size, i, data); }
    forall j: nat | j < ENTRIES_PER_FILE && j != i
      ensures Lookup(Appended(files[k], size, i, data), size, j) == Lookup(files[k], size, j)
    {
      AppendElsewhere(files[k], size, i, data, j);
    }
    OnlyThatEntry(bitmap, files, size, entry, Appended(files[k], size, i, data));
    assert bitmap[k := true] == bitmap;
  }

  lemma OverwrittenTable(bitmap: seq<bool>, files: map<nat, File>, size: nat, entry: nat, data: seq<byte>)
    requires size > 0 && AllSound(bitmap, files, size) && |data| <= size
    requires FileOf(entry) < |bitmap| && bitmap[FileOf(entry)] && FileOf(entry) in files
    requires IndexOf(entry) < |files[FileOf(entry)].header| && files[FileOf(entry)].header[IndexOf(entry)] < EMPTY_ENTRY
    ensures var k := FileOf(entry); var files' := files[k := Overwritten(files[k], size, IndexOf(entry), data)];
            && AllSound(bitmap, files', size)
            && View(bitmap, files, size, entry).Some? && |View(bitmap, files, size, entry).value| == size
            && View(bitmap, files', size, entry) == Some(data + View(bitmap, files, size, entry).value[|data|..])
            && forall e: nat :: e != entry ==> View(bitmap, files', size, e) == View(bitmap, files, size, e)
  {
    LookupIsRecord(files[FileOf(entry)], size, IndexOf(entry));
    hide Sound, Lookup, Overwritten;
    var k, i := FileOf(entry), IndexOf(entry);
    SoundWhere(bitmap, files, size, k);
    OverwriteWorks(files[k], size, i, data);
    forall j: nat | j < ENTRIES_PER_FILE && j != i
      ensures Lookup(Overwritten(files[k], size, i, data), size, j) == Lookup(files[k], size, j)
    {
      OverwriteElsewhere(files[k], size, i, data, j);
    }
    OnlyThatEntry(bitmap, files, size, entry, Overwritten(files[k], size, i, data));
    assert bitmap[k := true] == bitmap;
  }

  lemma UnreleasedTable(bitmap: seq<bool>, files: map<nat, File>, size: nat, entry: nat)
    requires size > 0 && AllSound(bitmap, files, size)
    requires FileOf(entry) < |bitmap| && bitmap[FileOf(entry)] && FileOf(entry) in files
    requires IndexOf(entry) < |files[FileOf(entry)].header|
    requires EMPTY_ENTRY <= files[FileOf(entry)].header[IndexOf(entry)] < NEVER_WRITTEN
    ensures var k, i := FileOf(entry), IndexOf(entry); var f := files[k];
            var files' := files[k := f.(header := f.header[i := f.header[i] - EMPTY_ENTRY])];
            && AllSound(bitmap, files', size)
            && View(bitmap, files, size, entry) == None
            && View(bitmap, files', size, entry) == Some(Record(f, size, f.header[i] - EMPTY_ENTRY))
            && forall e: nat :: e != entry ==> View(bitmap, files', size, e) == View(bitmap, files, size, e)
  {
    hide Sound;
    var k, i := FileOf(entry), IndexOf(entry);
    var f := files[k];
    SoundWhere(bitmap, files, size, k);
    UnreleaseKeepsSound(f, size, i);
    OnlyThatEntry(bitmap, files, size, entry, f.(header := f.header[i := f.header[i] - EMPTY_ENTRY]));
    assert bitmap[k := true] == bitmap;
  }

  /** A file that is not announced can change without a trace, as long as it has no complete record. */
  lemma NobodySees(bitmap: seq<bool>, files: map<nat, File>, size: nat, k: nat, g: File)
    requires size > 0 && k < |bitmap| && !bitmap[k]
    ensures forall e: nat :: View(bitmap, files[k := g], size, e) == View(bitmap, files, size, e)
    ensures AllSound(bitmap, files, size) && |g.body| < size ==> AllSound(bitmap, files[k := g], size)
  {
    hide Sound, Lookup;
  }

  lemma Unannounced(bitmap: seq<bool>, files: map<nat, File>, size: nat, entry: nat)
    requires size > 0 && FileOf(entry) < |bitmap| && !bitmap[FileOf(entry)]
    ensures AllSound(bitmap, files, size) && FileOf(entry) in files ==> |files[FileOf(entry)].body| < size
    ensures View(bitmap, files, size, entry) == None
  {}

  lemma CreatedBody(i: nat, body: seq<byte>)
    requires i < ENTRIES_PER_FILE
    ensures Created(i, body).body == body
  {}

  lemma CreatedTable(bitmap: seq<bool>, files: map<nat, File>, size: nat, entry: nat, body: seq<byte>, data: seq<byte>)
    requires size > 0 && |data| == size && FileOf(entry) < |bitmap| && !bitmap[FileOf(entry)]
    ensures var k := FileOf(entry); var files' := files[k := Created(IndexOf(entry), Pwrite(body, 0, data))];
            && (AllSound(bitmap, files, size) && |body| < size ==> AllSound(bitmap[k := true], files', size))
            && View(bitmap[k := true], files', size, entry) == Some(data)
            && forall e: nat :: e != entry ==> View(bitmap[k := true], files', size, e) == View(bitmap, files, size, e)
  {
    hide Sound, Lookup, Created;
    CreateOver(size, IndexOf(entry), body, data);
    if |body| < size {
      assert Pwrite(body, 0, data) == data;
      CreateWorks(size, IndexOf(entry), data);
    }
    OnlyThatEntry(bitmap, files, size, entry, Created(IndexOf(entry), Pwrite(body, 0, data)));
  }

  /**
    The result of the flush is ignored: for every table, the first write to a file reports
    success although its bit did not get to the disk, and a restart then loses the entry.
   */
  method UnsavedBitIsLost(t: Table, entry: nat, data: seq<byte>, io: Outcome) returns (r: Reply)
    requires t.Valid() && |data| == t.size && FileOf(entry) < |t.bitmap|
    requires FileOf(entry) !in t.files && !t.saved[FileOf(entry)]
    requires io.Works(t.size) && !io.flush && 8 * io.flushed <= FileOf(entry)
    modifies t
    ensures r.Length? && r.count == t.size && t.At(entry) == None
    ensures t.Basic() && |t.bitmap| == old(|t.bitmap|) && !t.bitmap[FileOf(entry)]
  {
    r := t.Write(entry, data, io);
    t.Restart();
  }

  /**
    After that the next write to the file, to whatever other entry of it, starts its header
    afresh: with its bit on disk again, and after one more restart, the first entry is still gone.
   */
  method HeaderStartsAfresh(t: Table, entry: nat, data: seq<byte>, io: Outcome, entry': nat, data': seq<byte>, io': Outcome)
    returns (r: Reply, r': Reply)
    requires t.Valid() && |data| == |data'| == t.size && FileOf(entry) == FileOf(entry') < |t.bitmap| && entry != entry'
    requires FileOf(entry) !in t.files && !t.saved[FileOf(entry)]
    requires io.Works(t.size) && !io.flush && 8 * io.flushed <= FileOf(entry) && io'.Clean(t.size)
    modifies t
    ensures r.Length? && r'.Length? && t.bitmap == t.saved
    ensures t.At(entry') == Some(data') && t.At(entry) == None
  {
    r := UnsavedBitIsLost(t, entry, data, io);
    assert t.Basic() && !t.bitmap[FileOf(entry')];
    r' := t.Write(entry', data', io');
    assert t.At(entry') == Some(data') && t.At(entry) == None && t.saved == t.bitmap;
    t.Restart();
  }
}
