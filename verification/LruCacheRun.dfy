/** A run of the cache that loses an entry: slots of a second array are filled, and most of them emptied again. */
module LruCacheRun {
  import opened Counting
  import opened CacheBucket
  import opened LruCache

  /** Exactly these slots are in use, and each holds the key of its own number. */
  ghost predicate InUse(b: Bucket, used: set<nat>) {
    && Shape(b)
    && forall i: nat :: i < SLOTS ==>
         && (!b.free[i] <==> i in used)
         && (i in used ==> b.present[i / PER_ARRAY] && b.slots[i].Some? && b.slots[i].value.key == i)
  }

  /** The keys below n, of which those below k are gone, 32 and 63 excepted. */
  ghost function Used(n: nat, k: nat): set<nat> {
    set i | i in UpTo(n) && (i >= k || i == 32 || i == 63)
  }

  lemma FirstFreeIsNext(b: Bucket, n: nat, s: nat)
    requires InUse(b, Used(n, 0)) && n < 64 && s < SLOTS && b.free[s] && Same(b.free, 0, s, false)
    ensures s == n
  {
    hide UpTo;
    assert b.free[n] && s !in Used(n, 0);
  }

  lemma ClearedOther(b: Bucket, a: nat, i: nat)
    requires Shape(b) && a < ARRAYS && i < SLOTS && b.present[i / PER_ARRAY]
    ensures var c := Cleared(b, a); |c.slots| == SLOTS && |c.present| == ARRAYS && c.slots[i] == b.slots[i] && c.present[i / PER_ARRAY]
  {}

  lemma InsertNext(b: Bucket, n: nat, e: Entry, t: nat)
    requires InUse(b, Used(n, 0)) && n < 64 && e.key == n && b.free[n]
    ensures InUse(InsertSlot(b, n, e, t), Used(n + 1, 0))
  {
    hide UpTo, Cleared;
    var c := InsertSlot(b, n, e, t);
    ClearedPresent(b, n / PER_ARRAY);
    forall i: nat | i < SLOTS && i in Used(n, 0) ensures c.slots[i] == b.slots[i] && c.present[i / PER_ARRAY] {
      ClearedOther(b, n / PER_ARRAY, i);
    }
    assert Used(n + 1, 0) == Used(n, 0) + {n};
    assert c.free == b.free[n := false];
    InsertShape(b, n, e, t);
  }

  lemma InsertShape(b: Bucket, n: nat, e: Entry, t: nat)
    requires Shape(b) && n < SLOTS
    requires forall i: nat :: i < SLOTS && !b.free[i] ==> b.present[i / PER_ARRAY]
    ensures Shape(InsertSlot(b, n, e, t))
  {
    hide Cleared;
    ClearedPresent(b, n / PER_ARRAY);
    var c := InsertSlot(b, n, e, t);
    forall i: nat | i < SLOTS && !c.free[i] && i != n ensures c.slots[i].Some? {
      ClearedOther(b, n / PER_ARRAY, i);
    }
  }

  lemma RemoveNext(b: Bucket, used: set<nat>, key: nat, s: nat)
    requires InUse(b, used) && s < SLOTS && Matches(b, s, key) && SafeSlot(b.free, s)
    ensures s == key && InUse(RemoveSlot(b, s, key), used - {key})
  {
    hide ReleaseTest;
    var c := RemoveSlot(b, s, key);
    forall i: nat | i < SLOTS && i in used && i != s ensures c.present[i / PER_ARRAY] {
      assert !b.free[i];
    }
  }

  /** While slot 32 is in use, the test of array 1 sees it. */
  lemma SafeNext(b: Bucket, k: nat)
    requires InUse(b, Used(64, k)) && k < 63 && k != 32
    ensures SafeKey(b, k)
  {
    hide UpTo;
    forall s: nat | s < SLOTS && Matches(b, s, k) ensures SafeSlot(b.free, s) {
      assert s in Used(64, k) && s == k;
      if s < PER_ARRAY {
        FirstArrayIsSafe(b.free, s);
      } else {
        ReleaseTestCovers(b.free[s := true], 1);
        assert 32 in Used(64, k);
        assert !b.free[s := true][32];
      }
    }
  }

  lemma KeysInUse(c: Cache, used: set<nat>, key: nat)
    requires c.Valid() && c.count == 1 && InUse(c.buckets[0], used)
    ensures HasKey(c.all, key) ==> key in used
    ensures key in used && key < SLOTS ==> HasKey(c.all, key)
  {
    KeyHasSlot(c.all, c.buckets, c.Place(), c.tag, key);
    var b := c.buckets[0];
    if HasKey(c.all, key) {
      var s :| 0 <= s < SLOTS && Matches(b, s, key) && b.tags[s] == c.tag(key);
    }
    if key in used && key < SLOTS {
      assert Matches(b, key, key);
      SlotHasEntry(c.all, c.buckets, c.Place(), c.tag, key, key);
    }
  }

  /** Fill slots 0 to 63 of the only bucket of an empty cache. */
  method Fill(hash: nat -> nat, tag: nat -> nat) returns (c: Cache)
    ensures fresh(c) && c.Valid() && c.count == 1 && c.tag == tag && InUse(c.buckets[0], Used(64, 0))
  {
    hide InUse;
    c := new Cache(100, 1, hash, tag);
    EmptyInUse(c.buckets[0]);
    for n := 0 to 64
      invariant fresh(c) && c.Valid() && c.count == 1 && c.max == 100 && c.tag == tag && c.size == n
      invariant InUse(c.buckets[0], Used(n, 0))
    {
      FillOne(c, n);
    }
  }

  lemma EmptyInUse(b: Bucket)
    requires b == Empty()
    ensures InUse(b, Used(0, 0))
  {}

  method FillOne(c: Cache, n: nat)
    requires c.Valid() && c.count == 1 && c.max == 100 && c.size == n < 64 && InUse(c.buckets[0], Used(n, 0))
    modifies c
    ensures c.Valid() && c.size == n + 1 && InUse(c.buckets[0], Used(n + 1, 0))
  {
    hide InUse, Filter, Coherent;
    KeysInUse(c, Used(n, 0), n);
    FilterShorter(c.all, c.Place(), 0);
    ghost var before := c.buckets;
    var e := Entry(n, n, c.dirtyMain, c.buckets[0].dirty);
    var ok := c.Insert(n, n, true);
    FilledSlot(before, c.buckets, n, e, c.tag(n));
  }

  lemma FilledSlot(before: seq<Bucket>, after: seq<Bucket>, n: nat, e: Entry, t: nat)
    requires InsertedInto(before, after, 0, e, t) && InUse(before[0], Used(n, 0)) && n < 64 && e.key == n
    ensures InUse(after[0], Used(n + 1, 0))
  {
    hide InUse, InsertSlot;
    var s: nat :| s < SLOTS && before[0].free[s] && Same(before[0].free, 0, s, false)
                  && after == before[0 := InsertSlot(before[0], s, e, t)];
    FirstFreeIsNext(before[0], n, s);
    InsertNext(before[0], n, e, t);
  }

  lemma ClearedSlot(before: seq<Bucket>, after: seq<Bucket>, used: set<nat>, key: nat)
    requires RemovedFrom(before, after, 0, key) && InUse(before[0], used) && SafeKey(before[0], key)
    ensures InUse(after[0], used - {key})
  {
    hide InUse, RemoveSlot, SafeSlot;
    var s: nat :| s < SLOTS && Matches(before[0], s, key) && after == before[0 := RemoveSlot(before[0], s, key)];
    RemoveNext(before[0], used, key, s);
  }

  /** Remove all of them but 32 and 63; every one of these removals is safe. */
  method Thin(c: Cache)
    requires c.Valid() && c.count == 1 && InUse(c.buckets[0], Used(64, 0))
    modifies c
    ensures c.Valid() && InUse(c.buckets[0], {32, 63})
  {
    hide InUse, Used;
    for k := 0 to 63
      invariant c.Valid() && InUse(c.buckets[0], Used(64, k))
    {
      UsedStep(k);
      if k != 32 {
        ThinOne(c, k);
      }
    }
    UsedEnd();
  }

  method ThinOne(c: Cache, k: nat)
    requires c.Valid() && c.count == 1 && InUse(c.buckets[0], Used(64, k)) && k < 63 && k != 32
    modifies c
    ensures c.Valid() && InUse(c.buckets[0], Used(64, k) - {k})
  {
    hide InUse, SafeKey, Coherent, Used, RemovedFrom;
    UsedStep(k);
    KeysInUse(c, Used(64, k), k);
    SafeNext(c.buckets[0], k);
    ghost var before := c.buckets;
    var ok := c.Remove(k);
    ClearedSlot(before, c.buckets, Used(64, k), k);
  }

  lemma UsedStep(k: nat)
    requires k < 63
    ensures k in Used(64, k) && Used(64, k + 1) == if k == 32 then Used(64, k) else Used(64, k) - {k}
  {
    hide UpTo;
  }

  lemma UsedEnd()
    ensures Used(64, 63) == {32, 63}
  {
    hide UpTo;
  }

  /** Removing 32 then releases the array that 63 is in. */
  lemma LastRemoval(before: seq<Bucket>, after: seq<Bucket>)
    requires RemovedFrom(before, after, 0, 32) && InUse(before[0], {32, 63})
    ensures Shape(after[0]) && !after[0].free[63] && !after[0].present[63 / PER_ARRAY]
    ensures forall i :: 0 <= i < SLOTS && !after[0].free[i] ==> i == 63
  {
    var s: nat :| s < SLOTS && Matches(before[0], s, 32) && after == before[0 := RemoveSlot(before[0], s, 32)];
    assert s == 32;
    ReleaseTestCovers(before[0].free[32 := true], 1);
    assert Same(before[0].free[32 := true], 8, 32, true);
  }

  /** From an empty cache, with inserts and removals only: an entry that was never removed is not found. */
  method ArrayIsLost(hash: nat -> nat, tag: nat -> nat) returns (c: Cache, s: int)
    ensures HasKey(c.all, 63) && s < 0 && !c.Valid()
  {
    hide InUse, Coherent;
    c := Fill(hash, tag);
    Thin(c);
    KeysInUse(c, {32, 63}, 32);
    KeysInUse(c, {32, 63}, 63);
    ghost var before, all := c.buckets, c.all;
    var ok := c.Remove(32);
    LastRemoval(before, c.buckets);
    WithoutMembers(all, 32);
    MissingArray(c.all, c.buckets, c.Place(), tag, 0, 63);
    s := Locate(c.buckets[0], 63, tag(63), 0);
  }
}
