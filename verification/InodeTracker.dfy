/**
  The persistent inode allocator of one slice.  An inode is a tracking file and an
  index in it.  What survives a restart is the length of the tracking files and the
  replicas of the main file, some of which may be stale.
 */
module InodeTracker {
  import opened Options

  const PER_FILE: nat := 2044     // (4096 - 8) / 2
  const HEADER_SIZE := 4096
  const MAX_RECURSE := 4
  const REPLICAS := 4

  datatype Inode = Inode(file: nat, idx: nat)

  predicate Less(a: Inode, b: Inode) {
    a.file < b.file || (a.file == b.file && a.idx < b.idx)
  }

  /** A tracking file: its length in bytes, and the entries of its header set to 0xffff. */
  datatype File = File(length: nat, released: set<nat>)

  /** How the system calls of one attempt to open a tracking file turn out. */
  datatype Outcome = Outcome(memory: bool, access: bool, open: bool, stat: bool, read: bool, headerWritten: nat, main: seq<bool>) {
    predicate Clean() {
      memory && access && open && stat && read && headerWritten >= HEADER_SIZE && MainWritten(main)
    }
  }

  /** The main file is written to every replica; one success is enough. */
  predicate MainWritten(main: seq<bool>) {
    exists k :: 0 <= k < |main| && k < REPLICAS && main[k]
  }

  /** The first replica that can be read. */
  predicate FirstOf(readable: seq<bool>, k: int) {
    0 <= k < REPLICAS && k < |readable| && readable[k] && forall j :: 0 <= j < k ==> !readable[j]
  }

  /** Exactly the replicas that could be written hold the new index. */
  ghost predicate Recorded(replicas: seq<nat>, replicas': seq<nat>, main: seq<bool>, last: nat) {
    && |replicas| == |replicas'| == REPLICAS
    && forall k :: 0 <= k < REPLICAS ==> replicas'[k] == if k < |main| && main[k] then last else replicas[k]
  }

  /** A replica that changed holds a file number that was reached since. */
  ghost predicate Advanced(replicas: seq<nat>, replicas': seq<nat>, last: nat, last': nat) {
    && |replicas| == |replicas'| == REPLICAS
    && forall k :: 0 <= k < REPLICAS ==> replicas'[k] == replicas[k] || last < replicas'[k] <= last'
  }

  /** A file that holds anything is left as it is; what is new has nothing but a header. */
  ghost predicate Untouched(files: map<nat, File>, files': map<nat, File>) {
    && (forall f :: f in files && files[f].length > 0 ==> f in files' && files'[f] == files[f])
    && (forall f :: f in files' && (f in files ==> files'[f] != files[f]) ==> files'[f].length <= HEADER_SIZE && files'[f].released == {})
  }

  /** The calls made for this tracking file go well: creating it with its header, or reading that. */
  ghost predicate CanOpen(files: map<nat, File>, g: nat, io: Outcome) {
    && io.memory && io.access && io.open
    && if g in files then io.stat && io.read && files[g].length >= HEADER_SIZE else io.headerWritten >= HEADER_SIZE
  }

  /** Only file g may have become longer; no file comes or goes, and no entry is released. */
  ghost predicate Grown(files: map<nat, File>, files': map<nat, File>, g: nat) {
    && files'.Keys == files.Keys
    && (forall f :: f in files ==> files'[f].released == files[f].released && files'[f].length >= files[f].length)
    && (forall f :: f in files && f != g ==> files'[f] == files[f])
  }

  /** The file of this inode has a header, and the entry is not released. */
  predicate HasEntry(files: map<nat, File>, p: Inode) {
    p.file in files && files[p.file].length >= HEADER_SIZE && p.idx !in files[p.file].released
  }

  // ------------------------------------------------------------- counting entries

  /** Entries of a tracking file, a last one that is not complete included. */
  function Entries(length: nat, size: nat): nat
    requires size > 0
  {
    if length < HEADER_SIZE then 0
    else
      var payload := length - HEADER_SIZE;
      payload / size + if payload % size != 0 then 1 else 0
  }

  function EntriesOf(files: map<nat, File>, size: nat, f: nat): nat
    requires size > 0
  {
    if f in files then Entries(files[f].length, size) else 0
  }

  /** Where `written` bytes of the attributes of entry idx end. */
  function AttributesEnd(idx: nat, size: nat, written: nat): nat {
    HEADER_SIZE + idx * size + written
  }

  lemma ProductGap(a: nat, b: nat, size: nat)
    requires a < b
    ensures a * size + size <= b * size
  {
    assert (a + 1) * size <= b * size;
  }

  /** Entries are counted up: n entries end after the first byte of the last and not after its last byte. */
  lemma EntriesExact(length: nat, size: nat, n: nat)
    requires size > 0 && length > HEADER_SIZE
    ensures Entries(length, size) == n + 1 <==> n * size < length - HEADER_SIZE <= n * size + size
  {
    var x := length - HEADER_SIZE;
    var q, r := x / size, x % size;
    assert x == q * size + r;
    var m: nat := if r != 0 then q else q - 1;
    assert m * size < x <= m * size + size;
    assert Entries(length, size) == m + 1;
    if m < n { ProductGap(m, n, size); }
    if n < m { ProductGap(n, m, size); }
  }

  /** Writing attributes raises the count to the entry written, and never lowers it. */
  lemma WriteRaisesEntries(length: nat, size: nat, idx: nat, written: nat)
    requires size > 0 && 0 < written <= size && length >= HEADER_SIZE
    ensures var end := AttributesEnd(idx, size, written);
            var length' := if end > length then end else length;
            Entries(length', size) == if Entries(length, size) > idx then Entries(length, size) else idx + 1
  {
    var end := AttributesEnd(idx, size, written);
    EntriesExact(end, size, idx);
    var n := Entries(length, size);
    if length == HEADER_SIZE {
      assert n == 0;
    } else {
      var m: nat := n - 1;
      EntriesExact(length, size, m);
      if idx < m { ProductGap(idx, m, size); }
      if m < idx { ProductGap(m, idx, size); }
      if m == idx && end > length { assert Entries(end, size) == idx + 1; }
    }
  }

  // ---------------------------------------------------------------- the invariants

  /** An index at or above this one has not been given out in file f. */
  ghost function Bound(files: map<nat, File>, size: nat, last: nat, cur: nat, available: bool, f: nat): nat
    requires size > 0
  {
    if available && f == last then cur else EntriesOf(files, size, f)
  }

  /** No inode given out can be given out again: the files below `last` are not used any more. */
  ghost predicate Unissued(issued: set<Inode>, files: map<nat, File>, size: nat, last: nat, cur: nat, available: bool)
    requires size > 0
  {
    forall p :: p in issued && p.file >= last ==> p.idx < Bound(files, size, last, cur, available, p.file)
  }

  ghost predicate Full(files: map<nat, File>, size: nat, g: nat)
    requires size > 0
  {
    EntriesOf(files, size, g) == PER_FILE
  }

  /** The next inode is above all the others: only full files lie between `last` and later ones in use. */
  ghost predicate Ahead(issued: set<Inode>, files: map<nat, File>, size: nat, last: nat, available: bool)
    requires size > 0
  {
    forall p :: p in issued && p.file > last ==> !available && forall g: nat :: last <= g < p.file ==> Full(files, size, g)
  }

  class Tracker {
    const size: nat                // bytes on disk of an inode's attributes
    var lastIdx: nat
    var curIdx: nat
    var indexAvailable: bool
    var replicas: seq<nat>         // last_idx in each replica of the main file
    var files: map<nat, File>
    ghost var issued: set<Inode>   // every inode ever allocated with success

    ghost predicate Valid()
      reads this
    {
      && size > 0 && |replicas| == REPLICAS
      && (indexAvailable ==> curIdx < PER_FILE)
      && (forall p :: p in issued ==> p.idx < PER_FILE)
      && (forall f :: f in files ==> Entries(files[f].length, size) <= PER_FILE)
      && Unissued(issued, files, size, lastIdx, curIdx, indexAvailable)
    }

    ghost predicate Ordered()
      requires size > 0
      reads this
    {
      Ahead(issued, files, size, lastIdx, indexAvailable)
    }

    /** The attributes of this inode, or of a later one of its file, have been written. */
    ghost predicate Covered(p: Inode)
      requires size > 0
      reads this
    {
      p.idx < EntriesOf(files, size, p.file)
    }

    constructor (size: nat)
      requires size > 0
      ensures Valid() && Ordered() && this.size == size && issued == {} && files == map[]
      ensures lastIdx == 0 && !indexAvailable && replicas == [0, 0, 0, 0]
    {
      this.size := size;
      lastIdx, curIdx, indexAvailable := 0, 0, false;
      replicas := [0, 0, 0, 0];
      files := map[];
      issued := {};
    }

    /** A new process: what it knows is the files and one replica of the main file. */
    constructor Reload(size: nat, files: map<nat, File>, replicas: seq<nat>, k: nat)
      requires size > 0 && |replicas| == REPLICAS && k < REPLICAS
      requires forall f :: f in files ==> Entries(files[f].length, size) <= PER_FILE
      ensures Valid() && Ordered() && this.size == size && this.files == files && issued == {}
      ensures lastIdx == replicas[k] && !indexAvailable && this.replicas == replicas
    {
      this.size := size;
      lastIdx, curIdx, indexAvailable := replicas[k], 0, false;
      this.replicas := replicas;
      this.files := files;
      issued := {};
    }

    /** Move on to the next tracking file, in memory in any case and in the replicas that can be written. */
    method IncrementMain(main: seq<bool>) returns (ok: bool)
      requires |replicas| == REPLICAS
      modifies this`lastIdx, this`replicas
      ensures lastIdx == old(lastIdx) + 1 && |replicas| == REPLICAS
      ensures Recorded(old(replicas), replicas, main, lastIdx)
      ensures ok <==> MainWritten(main)
    {
      lastIdx := lastIdx + 1;
      ok := false;
      for k := 0 to REPLICAS
        invariant |replicas| == REPLICAS && lastIdx == old(lastIdx) + 1
        invariant forall j :: 0 <= j < REPLICAS ==>
          replicas[j] == if j < k && j < |main| && main[j] then lastIdx else old(replicas)[j]
        invariant ok <==> exists j :: 0 <= j < k && j < |main| && main[j]
      {
        if k < |main| && main[k] {
          replicas := replicas[k := lastIdx];
          ok := true;
        }
      }
    }

    /** Look at the file `lastIdx`: create it, go on where it ends, or skip it if it is full. */
    method OpenOne(io: Outcome) returns (r: Attempt)
      requires Valid() && !indexAvailable
      modifies this`lastIdx, this`curIdx, this`indexAvailable, this`replicas, this`files
      ensures Valid() && indexAvailable == r.Opened?
      ensures SameEntries(old(files), files, size)
      ensures r.Opened? ==> lastIdx == old(lastIdx) && lastIdx in files && curIdx == EntriesOf(files, size, lastIdx)
      ensures r.Opened? ==> files[lastIdx].length >= HEADER_SIZE
      ensures r.Opened? <==> old(CanOpen(files, lastIdx, io)) && !old(Full(files, size, lastIdx))
      ensures r.Skipped? <==> old(CanOpen(files, lastIdx, io)) && old(Full(files, size, lastIdx)) && MainWritten(io.main)
      ensures !r.Opened? ==> lastIdx == old(lastIdx) || (lastIdx == old(lastIdx) + 1 && Full(files, size, old(lastIdx)))
      ensures r.Skipped? ==> lastIdx == old(lastIdx) + 1
      ensures lastIdx == old(lastIdx) ==> replicas == old(replicas)
      ensures lastIdx > old(lastIdx) ==> Recorded(old(replicas), replicas, io.main, lastIdx) && files == old(files)
      ensures r.Skipped? ==> MainWritten(io.main)
      ensures Untouched(old(files), files)
      ensures io.Clean() && old(Readable(files)) ==> Readable(files) && !r.GaveUp? && (r.Skipped? <==> Full(files, size, old(lastIdx)))
    {
      hide Entries, Recorded, MainWritten;
      if !io.memory || !io.access { return GaveUp; }
      if lastIdx !in files {
        if !io.open { return GaveUp; }
        var written := if io.headerWritten < HEADER_SIZE then io.headerWritten else HEADER_SIZE;
        HeaderOnly(written, size);
        files := files[lastIdx := File(written, {})];
        if written < HEADER_SIZE { return GaveUp; }
        indexAvailable, curIdx := true, 0;
        return Opened;
      }
      if !io.open || !io.stat { return GaveUp; }
      var length := files[lastIdx].length;
      if !io.read { return GaveUp; }
      if length < HEADER_SIZE {
        HeaderOnly(length, size);
        if length == 0 { files := files - {lastIdx}; }
        return GaveUp;
      }
      if Entries(length, size) == PER_FILE {
        curIdx := PER_FILE;
        var written := IncrementMain(io.main);
        return if written then Skipped else GaveUp;
      }
      curIdx := Entries(length, size);
      indexAvailable := true;
      return Opened;
    }

    /** Find the file and the index to go on with; full files are skipped, a few per call. */
    method Open(io: nat -> Outcome, reloop: nat) returns (ok: bool)
      requires Valid() && !indexAvailable && reloop <= MAX_RECURSE
      modifies this`lastIdx, this`curIdx, this`indexAvailable, this`replicas, this`files
      ensures Valid() && ok == indexAvailable
      ensures SameEntries(old(files), files, size)
      ensures ok ==> lastIdx in files && files[lastIdx].length >= HEADER_SIZE && curIdx == EntriesOf(files, size, lastIdx)
      ensures lastIdx >= old(lastIdx) && (lastIdx == old(lastIdx) ==> replicas == old(replicas))
      ensures forall g: nat :: old(lastIdx) <= g < lastIdx ==> Full(files, size, g)
      ensures Untouched(old(files), files) && Advanced(old(replicas), replicas, old(lastIdx), lastIdx)
      ensures ok && lastIdx > old(lastIdx) ==> lastIdx in replicas
      ensures AllClean(io) && old(Readable(files)) ==> Readable(files)
      ensures AllClean(io) && old(Readable(files)) ==>
        (ok <==> exists g: nat :: old(lastIdx) <= g <= old(lastIdx) + MAX_RECURSE - reloop && !Full(files, size, g))
      ensures AllClean(io) && old(Readable(files)) && !ok ==> lastIdx > old(lastIdx)
      decreases MAX_RECURSE - reloop
    {
      hide Entries, EntriesOf;
      var r := OpenOne(io(reloop));
      ok := r.Opened?;
      if r.Skipped? && reloop + 1 <= MAX_RECURSE {
        ok := Open(io, reloop + 1);
      }
    }

    /** Leave the current file when its last entry has been given out. */
    method CheckFull(main: seq<bool>) returns (ok: bool)
      requires |replicas| == REPLICAS && size > 0 && indexAvailable && curIdx <= PER_FILE
      modifies this`lastIdx, this`curIdx, this`indexAvailable, this`replicas
      ensures |replicas| == REPLICAS
      ensures old(curIdx) < PER_FILE ==> ok && indexAvailable && curIdx == old(curIdx) && lastIdx == old(lastIdx)
      ensures old(curIdx) < PER_FILE ==> replicas == old(replicas)
      ensures old(curIdx) == PER_FILE ==> ok == MainWritten(main) && !indexAvailable && curIdx == 0 && lastIdx == old(lastIdx) + 1
      ensures old(curIdx) == PER_FILE ==> Recorded(old(replicas), replicas, main, lastIdx)
    {
      if curIdx < PER_FILE { return true; }
      curIdx := 0;
      indexAvailable := false;
      ok := IncrementMain(main);
    }

    /** Give out the current index. */
    method Take(main: seq<bool>) returns (r: Option<Inode>)
      requires Valid() && indexAvailable
      modifies this`lastIdx, this`curIdx, this`indexAvailable, this`replicas, this`issued
      ensures Valid() && (old(Ordered()) ==> Ordered())
      ensures r.Some? <==> old(curIdx) + 1 < PER_FILE || MainWritten(main)
      ensures r.None? ==> issued == old(issued)
      ensures r.Some? ==> r.value == Inode(old(lastIdx), old(curIdx)) && issued == old(issued) + {r.value} && r.value !in old(issued)
      ensures r.Some? && old(Ordered()) ==> forall p :: p in old(issued) ==> Less(p, r.value)
      ensures lastIdx == if old(curIdx) + 1 < PER_FILE then old(lastIdx) else old(lastIdx) + 1
      ensures indexAvailable <==> old(curIdx) + 1 < PER_FILE
      ensures indexAvailable ==> curIdx == old(curIdx) + 1
      ensures lastIdx == old(lastIdx) ==> replicas == old(replicas)
      ensures lastIdx > old(lastIdx) ==> Recorded(old(replicas), replicas, main, lastIdx)
    {
      hide Entries, Unissued, Ahead;
      var inode := Inode(lastIdx, curIdx);
      NextIsNew(issued, files, size, lastIdx, curIdx);
      if Ordered() {
        NextIsAbove(issued, files, size, lastIdx, curIdx);
      }
      curIdx := curIdx + 1;
      var ok := CheckFull(main);
      if !ok { return None; }
      issued := issued + {inode};
      r := Some(inode);
    }

    /**
      An inode allocated with success is one that no allocation returned before; while
      the allocator is ahead of all of them it is above all of them, and stays so.
     */
    method Allocate(io: nat -> Outcome, main: seq<bool>) returns (r: Option<Inode>)
      requires Valid()
      modifies this
      ensures Valid() && SameEntries(old(files), files, size)
      ensures r.None? ==> issued == old(issued)
      ensures r.Some? ==> r.value !in old(issued) && issued == old(issued) + {r.value} && r.value.idx < PER_FILE
      ensures r.Some? && old(indexAvailable) ==> r.value == Inode(old(lastIdx), old(curIdx))
      ensures old(indexAvailable) ==> (r.Some? <==> old(curIdx) + 1 < PER_FILE || MainWritten(main))
      ensures r.Some? && !old(indexAvailable) ==>
        && r.value.file >= old(lastIdx) && r.value.idx == EntriesOf(files, size, r.value.file)
        && forall g: nat :: old(lastIdx) <= g < r.value.file ==> Full(files, size, g)
      ensures r.Some? && r.value.idx + 1 < PER_FILE ==> indexAvailable && lastIdx == r.value.file && curIdx == r.value.idx + 1
      ensures r.Some? && r.value.idx + 1 == PER_FILE ==> !indexAvailable && lastIdx == r.value.file + 1
      ensures lastIdx == old(lastIdx) ==> replicas == old(replicas)
      ensures Untouched(old(files), files) && Advanced(old(replicas), replicas, old(lastIdx), lastIdx)
      ensures r.Some? && lastIdx > old(lastIdx) ==> lastIdx in replicas
      ensures old(Ordered()) ==> Ordered() && (r.Some? ==> forall p :: p in old(issued) ==> Less(p, r.value))
      ensures AllClean(io) && old(Readable(files)) ==> Readable(files)
      ensures AllClean(io) && MainWritten(main) && old(Readable(files)) && r.None? ==>
        && !old(indexAvailable) && !indexAvailable && lastIdx > old(lastIdx)
        && forall g: nat :: old(lastIdx) <= g < lastIdx ==> Full(files, size, g)
      ensures AllClean(io) && MainWritten(main) && old(Readable(files)) ==>
        (r.Some? <==> old(indexAvailable) || exists g: nat :: old(lastIdx) <= g <= old(lastIdx) + MAX_RECURSE && !Full(files, size, g))
    {
      hide Entries, EntriesOf, Unissued, Ahead;
      if !indexAvailable {
        var ok := Open(io, 0);
        if old(Ordered()) {
          AheadAfterOpen(issued, old(files), files, size, old(lastIdx), lastIdx, indexAvailable);
        }
        if !ok { return None; }
      }
      r := Take(main);
    }

    /** Attributes are written at the place of the entry, in a file that exists and if it was not released. */
    method WriteAttributes(p: Inode, length: nat, open: bool, written: nat) returns (ok: bool)
      requires Valid() && p.idx < PER_FILE
      modifies this`files
      ensures Valid() && (old(Ordered()) ==> Ordered())
      ensures ok && length > 0 ==> Covered(p)
      ensures forall q :: old(Covered(q)) ==> Covered(q)
      ensures ok <==> open && length <= size && old(HasEntry(files, p)) && written >= length
      ensures var more := open && length <= size && old(HasEntry(files, p)) && length > 0 && written > 0;
              EntriesOf(files, size, p.file) ==
                if more && old(EntriesOf(files, size, p.file)) <= p.idx then p.idx + 1 else old(EntriesOf(files, size, p.file))
      ensures Grown(old(files), files, p.file)
      ensures ok ==> files[p.file].length >= AttributesEnd(p.idx, size, length) || length == 0
    {
      hide Entries, Unissued, Ahead;
      ok := false;
      if length > size { return; }
      if p.file !in files || !open { return; }
      var f := files[p.file];
      if f.length < HEADER_SIZE || p.idx in f.released { return; }
      var count := if written < length then written else length;
      if count > 0 {
        var end := AttributesEnd(p.idx, size, count);
        WriteRaisesEntries(f.length, size, p.idx, count);
        files := files[p.file := f.(length := if end > f.length then end else f.length)];
        GrownKeeps(issued, old(files), files, size, lastIdx, curIdx, indexAvailable);
      }
      ok := count == length;
    }

    /** Releasing an inode frees no index: it is never allocated again. */
    method Release(p: Inode, open: bool) returns (ok: bool)
      requires Valid()
      modifies this`files
      ensures Valid() && SameEntries(old(files), files, size) && (old(Ordered()) ==> Ordered())
      ensures ok <==> p.file in old(files) && open
      ensures files.Keys == old(files).Keys && forall f :: f in files ==> files[f].length == old(files)[f].length
      ensures forall f, i :: f in files ==>
                (i in files[f].released <==> i in old(files)[f].released || (ok && Inode(f, i) == p))
    {
      hide Entries, Unissued, Ahead;
      ok := false;
      if p.file !in files || !open { return; }
      files := files[p.file := files[p.file].(released := files[p.file].released + {p.idx})];
      GrownKeeps(issued, old(files), files, size, lastIdx, curIdx, indexAvailable);
      ok := true;
    }

    /**
      A restart goes on with the first replica of the main file that can be read.
      If, from that file on, the attributes of every allocated inode, or of a later one
      of its file, were written, the invariant holds again and no inode is repeated.
      RestartRepeats shows that every other inode is given out again.
     */
    method Restart(readable: seq<bool>) returns (ok: bool)
      requires Valid()
      modifies this`lastIdx, this`curIdx, this`indexAvailable
      ensures ok <==> MainWritten(readable)
      ensures ok ==> !indexAvailable && exists k :: FirstOf(readable, k) && lastIdx == replicas[k]
      ensures !ok ==> lastIdx == old(lastIdx) && curIdx == old(curIdx) && indexAvailable == old(indexAvailable)
      ensures ok ==> (Valid() <==> forall p :: p in issued && p.file >= lastIdx ==> Covered(p))
      ensures ok && old(Ordered()) && (forall g: nat :: lastIdx <= g < old(lastIdx) ==> Full(files, size, g)) ==> Ordered()
    {
      hide Entries;
      ok := false;
      var k := 0;
      while k < REPLICAS && !ok
        invariant 0 <= k <= REPLICAS
        invariant !ok ==> forall j :: 0 <= j < k && j < |readable| ==> !readable[j]
        invariant !ok ==> lastIdx == old(lastIdx) && curIdx == old(curIdx) && indexAvailable == old(indexAvailable)
        invariant ok ==> !indexAvailable && exists j :: FirstOf(readable, j) && lastIdx == replicas[j]
      {
        if k < |readable| && readable[k] {
          ok := true;
          assert FirstOf(readable, k);
          lastIdx, curIdx, indexAvailable := replicas[k], 0, false;
        }
        k := k + 1;
      }
    }
  }

  /** Attributes that could be written once can be written again: by then only a release could have come in between. */
  method WriteTwice(t: Tracker, p: Inode, length: nat, length': nat, written: nat, written': nat) returns (ok: bool, ok': bool)
    requires t.Valid() && p.idx < PER_FILE
    modifies t`files
    ensures t.Valid()
    ensures ok && length' <= t.size && written' >= length' ==> ok'
  {
    hide Entries, Unissued, Ahead;
    ok := t.WriteAttributes(p, length, true, written);
    ok' := t.WriteAttributes(p, length', true, written');
  }

  /** A release closes its own entry to further attributes, and no other one. */
  method ReleaseThenWrite(t: Tracker, p: Inode, q: Inode, length: nat, written: nat) returns (released: bool, ok: bool)
    requires t.Valid() && q.idx < PER_FILE
    modifies t`files
    ensures t.Valid() && (released <==> p.file in old(t.files))
    ensures released && q == p ==> !ok
    ensures q != p && length <= t.size && written >= length && old(HasEntry(t.files, q)) ==> ok
  {
    hide Entries, Unissued, Ahead;
    released := t.Release(p, true);
    ok := t.WriteAttributes(q, length, true, written);
  }

  /** Skipping full files keeps the allocator ahead. */
  lemma AheadAfterOpen(issued: set<Inode>, files: map<nat, File>, files': map<nat, File>, size: nat, last: nat, last': nat, available: bool)
    requires size > 0 && Ahead(issued, files, size, last, false) && SameEntries(files, files', size) && last <= last'
    requires available ==> EntriesOf(files', size, last') < PER_FILE
    ensures Ahead(issued, files', size, last', available)
  {
    hide EntriesOf;
    forall p | p in issued && p.file > last'
      ensures !available && forall g: nat :: last' <= g < p.file ==> Full(files', size, g)
    {
      assert Full(files, size, last') && EntriesOf(files', size, last') == PER_FILE;
      forall g: nat | last' <= g < p.file ensures Full(files', size, g) {
        assert Full(files, size, g) && EntriesOf(files', size, g) == EntriesOf(files, size, g);
      }
    }
  }

  lemma NextIsNew(issued: set<Inode>, files: map<nat, File>, size: nat, last: nat, cur: nat)
    requires size > 0 && Unissued(issued, files, size, last, cur, true)
    ensures Inode(last, cur) !in issued
    ensures Unissued(issued + {Inode(last, cur)}, files, size, last, cur + 1, true)
    ensures Unissued(issued + {Inode(last, cur)}, files, size, last + 1, 0, false)
    ensures Unissued(issued, files, size, last + 1, 0, false)
  {}

  lemma NextIsAbove(issued: set<Inode>, files: map<nat, File>, size: nat, last: nat, cur: nat)
    requires size > 0 && Ahead(issued, files, size, last, true) && Unissued(issued, files, size, last, cur, true)
    ensures forall p :: p in issued ==> Less(p, Inode(last, cur))
    ensures Ahead(issued + {Inode(last, cur)}, files, size, last, true)
    ensures Ahead(issued + {Inode(last, cur)}, files, size, last + 1, false)
    ensures Ahead(issued, files, size, last + 1, false)
  {}

  /** Files only grow, up to full: what is ruled out stays ruled out. */
  lemma GrownKeeps(issued: set<Inode>, files: map<nat, File>, files': map<nat, File>, size: nat, last: nat, cur: nat, available: bool)
    requires size > 0
    requires forall f: nat :: EntriesOf(files, size, f) <= EntriesOf(files', size, f) <= PER_FILE
    ensures Unissued(issued, files, size, last, cur, available) ==> Unissued(issued, files', size, last, cur, available)
    ensures Ahead(issued, files, size, last, available) ==> Ahead(issued, files', size, last, available)
  {
    hide EntriesOf;
    forall g: nat ensures Full(files, size, g) ==> Full(files', size, g) {
      assert EntriesOf(files, size, g) <= EntriesOf(files', size, g) <= PER_FILE;
    }
  }

  /** The allocator has not come past p yet. */
  ghost predicate Reaches(t: Tracker, p: Inode)
    reads t
  {
    t.lastIdx < p.file || (t.lastIdx == p.file && (t.indexAvailable ==> t.curIdx <= p.idx))
  }

  /** How far an allocator is from the end of its file. */
  ghost function Remaining(t: Tracker): nat
    reads t
  {
    if t.indexAvailable && t.curIdx <= PER_FILE then PER_FILE - t.curIdx else PER_FILE + 1
  }

  /**
    A process that starts from this disk gives out every inode of its files, from the
    replica it reads on, that is not covered by attributes: it comes to it sooner or later.
   */
  method ComesTo(size: nat, files: map<nat, File>, replicas: seq<nat>, k: nat, p: Inode, io: nat -> Outcome, main: seq<bool>)
    returns (r: Option<Inode>)
    requires size > 0 && |replicas| == REPLICAS && k < REPLICAS && Readable(files)
    requires forall f :: f in files ==> Entries(files[f].length, size) <= PER_FILE
    requires p.file >= replicas[k] && EntriesOf(files, size, p.file) <= p.idx < PER_FILE
    requires AllClean(io) && MainWritten(main)
    ensures r == Some(p)
  {
    hide Entries, EntriesOf;
    var t := new Tracker.Reload(size, files, replicas, k);
    r := None;
    while r != Some(p)
      invariant t.Valid() && t.size == size && Readable(t.files) && SameEntries(files, t.files, size)
      invariant fresh(t)
      invariant r == Some(p) || Reaches(t, p)
      decreases r != Some(p), p.file - t.lastIdx, Remaining(t)
    {
      r := t.Allocate(io, main);
      assert EntriesOf(t.files, size, p.file) == EntriesOf(files, size, p.file);
      assert !Full(t.files, size, p.file);
    }
  }

  /**
    Whatever a tracker has done: an inode that it gave out and that is not covered when
    the process stops is given out again after a restart.
   */
  method RestartRepeats(t: Tracker, k: nat, p: Inode, io: nat -> Outcome, main: seq<bool>) returns (r: Option<Inode>)
    requires t.Valid() && p in t.issued && k < REPLICAS && Readable(t.files)
    requires p.file >= t.replicas[k] && !t.Covered(p)
    requires AllClean(io) && MainWritten(main)
    ensures r == Some(p)
  {
    r := ComesTo(t.size, t.files, t.replicas, k, p, io, main);
  }

  /** The smallest such run: a crash before the attributes were written. */
  method CrashBeforeAttributes(size: nat, io: nat -> Outcome, main: seq<bool>) returns (a: Option<Inode>, b: Option<Inode>)
    requires size > 0 && AllClean(io) && MainWritten(main)
    ensures a == b == Some(Inode(0, 0))
  {
    hide Entries;
    var t := new Tracker(size);
    assert !Full(t.files, size, 0);
    a := t.Allocate(io, main);
    assert EntriesOf(t.files, size, 0) == EntriesOf(map[], size, 0) == 0;
    assert !Full(t.files, size, 0) && a == Some(Inode(0, 0));
    var u := new Tracker.Reload(size, t.files, t.replicas, 0);
    assert !Full(u.files, size, 0);
    b := u.Allocate(io, main);
    assert EntriesOf(u.files, size, 0) == EntriesOf(t.files, size, 0);
    assert !Full(u.files, size, 0);
  }

  datatype Attempt = Opened | Skipped | GaveUp

  ghost predicate AllClean(io: nat -> Outcome) {
    forall k: nat :: io(k).Clean()
  }

  /** No tracking file is cut off inside its header. */
  ghost predicate Readable(files: map<nat, File>) {
    forall f :: f in files ==> files[f].length >= HEADER_SIZE
  }

  ghost predicate SameEntries(files: map<nat, File>, files': map<nat, File>, size: nat)
    requires size > 0
  {
    forall f: nat :: EntriesOf(files', size, f) == EntriesOf(files, size, f)
  }

  lemma HeaderOnly(length: nat, size: nat)
    requires size > 0 && length <= HEADER_SIZE
    ensures Entries(length, size) == 0
  {}
}
