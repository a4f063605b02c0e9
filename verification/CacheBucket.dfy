/**
  A bucket of the cache: 256 slots managed by a bitmap of free slots, in 8 arrays of
  32 slots that are allocated when first used, and the list of the entries of the
  bucket, most recently used first.
 */
module CacheBucket {
  import opened Options
  import opened Counting

  const SLOTS := 256
  const PER_ARRAY := 32
  const ARRAYS := 8

  /** An entry with the dirty counters of the cache and of its bucket when it was inserted. */
  datatype Entry = Entry(key: nat, value: nat, dirtyMain: nat, dirtyBucket: nat)

  datatype Bucket = Bucket(lru: seq<Entry>, free: seq<bool>, present: seq<bool>, tags: seq<nat>, slots: seq<Option<Entry>>, dirty: nat)

  // ------------------------------------------------------------ scanning the bitmap

  /** n bits from i on are all of the kind to skip. */
  predicate Same(bits: seq<bool>, i: nat, n: nat, kind: bool)
    requires i + n <= |bits|
  {
    forall k :: i <= k < i + n ==> bits[k] == kind
  }

  /** The widest word of 64, 32, 16 or 8 bits at i, as its alignment allows, that is all of one kind; 0 if none is. */
  function WordAt(bits: seq<bool>, i: nat, kind: bool): (n: nat)
    requires |bits| == SLOTS && i % 8 == 0 && i < SLOTS
    ensures i + n <= SLOTS && n % 8 == 0 && Same(bits, i, n, kind)
    ensures n == 0 <==> !Same(bits, i, 8, kind)
  {
    var align := i / 8 % 8;
    if align == 0 && Same(bits, i, 64, kind) then 64
    else if align % 4 == 0 && Same(bits, i, 32, kind) then 32
    else if align % 2 == 0 && Same(bits, i, 16, kind) then 16
    else if Same(bits, i, 8, kind) then 8
    else 0
  }

  /**
    Skips bits of one kind by whole words, and possibly half a byte.  No bit of the
    other kind is ever passed, and one is in the half byte of the result.
   */
  method CheckBytes(bits: seq<bool>, first: nat, kind: bool) returns (r: int)
    requires |bits| == SLOTS && first % 8 == 0 && first <= SLOTS
    ensures r == -1 || first <= r < SLOTS
    ensures r == -1 ==> Same(bits, first, SLOTS - first, kind)
    ensures r >= 0 ==> Same(bits, first, r - first, kind)
    ensures r >= 0 ==> r % 4 == 0 && exists k :: r <= k < r + 4 && k < SLOTS && bits[k] != kind
  {
    hide WordAt;
    var i := first;
    while i < SLOTS
      invariant first <= i <= SLOTS && i % 8 == 0
      invariant Same(bits, first, i - first, kind)
    {
      var n := WordAt(bits, i, kind);
      if n == 0 {
        var k :| i <= k < i + 8 && bits[k] != kind;
        return if Same(bits, i, 4, kind) then i + 4 else i;
      }
      i := i + n;
    }
    r := -1;
  }

  /** The first free slot of a bucket. */
  method FirstFree(free: seq<bool>) returns (r: int)
    requires |free| == SLOTS
    ensures r == -1 || 0 <= r < SLOTS
    ensures r == -1 ==> Same(free, 0, SLOTS, false)
    ensures r >= 0 ==> free[r] && Same(free, 0, r, false)
  {
    var i := 0;
    while i < SLOTS
      invariant 0 <= i <= SLOTS && Same(free, 0, i, false)
    {
      if i % 8 == 0 {
        var next := CheckBytes(free, i, false);
        if next < 0 { return -1; }
        i := next;
      }
      if free[i] { return i; }
      i := i + 1;
    }
    r := -1;
  }

  // --------------------------------------------------------------------- invariants

  /** Sizes of the tables; a slot in use in an array that exists has an entry. */
  ghost predicate Shape(b: Bucket) {
    && |b.free| == SLOTS && |b.tags| == SLOTS && |b.slots| == SLOTS && |b.present| == ARRAYS
    && forall i :: 0 <= i < SLOTS && !b.free[i] && b.present[i / PER_ARRAY] ==> b.slots[i].Some?
  }

  ghost predicate HasSlot(b: Bucket, e: Entry)
    requires Shape(b)
  {
    exists i :: 0 <= i < SLOTS && !b.free[i] && b.slots[i] == Some(e)
  }

  ghost predicate DistinctKeys(s: seq<Entry>) {
    forall i, j :: 0 <= i < j < |s| ==> s[i].key != s[j].key
  }

  /** The slots in use are in arrays that exist. */
  ghost predicate NoneMissing(b: Bucket)
    requires Shape(b)
  {
    forall i :: 0 <= i < SLOTS && !b.free[i] ==> b.present[i / PER_ARRAY]
  }

  /** The slots in use hold the entries of the list, each once, with the tags of their keys. */
  ghost predicate SlotsAgree(b: Bucket, tag: nat -> nat)
    requires Shape(b)
  {
    && DistinctKeys(b.lru)
    && (forall i :: 0 <= i < SLOTS && !b.free[i] ==>
          b.slots[i].Some? && b.slots[i].value in b.lru && b.tags[i] == tag(b.slots[i].value.key))
    && (forall i, j :: 0 <= i < j < SLOTS && !b.free[i] && !b.free[j] ==> b.slots[i] != b.slots[j])
    && (forall e :: e in b.lru ==> HasSlot(b, e))
  }

  ghost predicate Sound(b: Bucket, tag: nat -> nat) {
    Shape(b) && NoneMissing(b) && SlotsAgree(b, tag)
  }

  // ------------------------------------------------------------------------ lookups

  ghost predicate Matches(b: Bucket, i: int, key: nat)
    requires Shape(b) && 0 <= i < SLOTS
  {
    !b.free[i] && b.present[i / PER_ARRAY] && b.slots[i].value.key == key
  }

  /** The first slot from `from` on that holds the key; -1 if there is none, -2 at a slot whose array is missing. */
  method Locate(b: Bucket, key: nat, t: nat, from: nat) returns (r: int)
    requires Shape(b) && from <= SLOTS
    ensures r == -1 || r == -2 || from <= r < SLOTS
    ensures r >= 0 ==> Matches(b, r, key) && b.tags[r] == t
    ensures r >= 0 ==> forall i :: from <= i < r ==> !(Matches(b, i, key) && b.tags[i] == t) && (b.free[i] || b.present[i / PER_ARRAY])
    ensures r == -1 ==> forall i :: from <= i < SLOTS && b.tags[i] == t ==> !Matches(b, i, key)
    ensures r == -2 ==> !NoneMissing(b)
    ensures r == -2 <==> exists j :: from <= j < SLOTS && !b.free[j] && !b.present[j / PER_ARRAY] &&
                                     forall i :: from <= i < j ==> !(Matches(b, i, key) && b.tags[i] == t)
  {
    var i := from;
    while i < SLOTS
      invariant from <= i <= SLOTS
      invariant forall k :: from <= k < i && b.tags[k] == t ==> !Matches(b, k, key)
      invariant forall k :: from <= k < i ==> b.free[k] || b.present[k / PER_ARRAY]
    {
      if i % 8 == 0 {
        var next := CheckBytes(b.free, i, true);
        if next < 0 { return -1; }
        i := next;
      }
      if !b.free[i] {
        if !b.present[i / PER_ARRAY] { return -2; }
        if b.tags[i] == t && b.slots[i].value.key == key { return i; }
      }
      i := i + 1;
    }
    r := -1;
  }

  // ------------------------------------------------------------------ pure list parts

  /** list_remove of the entry with that key. */
  function Without(s: seq<Entry>, key: nat): seq<Entry> {
    if s == [] then [] else if s[0].key == key then Without(s[1..], key) else [s[0]] + Without(s[1..], key)
  }

  ghost predicate HasKey(s: seq<Entry>, key: nat) {
    exists e :: e in s && e.key == key
  }

  lemma {:induction false} WithoutMembers(s: seq<Entry>, key: nat)
    ensures forall e :: e in Without(s, key) <==> e in s && e.key != key
    ensures DistinctKeys(s) ==> DistinctKeys(Without(s, key))
  {
    if s != [] {
      WithoutMembers(s[1..], key);
      assert s == [s[0]] + s[1..];
    }
  }

  lemma {:induction false} WithoutAbsent(s: seq<Entry>, key: nat)
    requires !HasKey(s, key)
    ensures Without(s, key) == s
  {
    if s != [] {
      assert s[0] in s;
      forall e | e in s[1..] ensures e.key != key { assert e in s; }
      WithoutAbsent(s[1..], key);
    }
  }

  lemma {:induction false} WithoutLength(s: seq<Entry>, key: nat)
    requires DistinctKeys(s) && HasKey(s, key)
    ensures |Without(s, key)| == |s| - 1
  {
    if s[0].key == key {
      WithoutAbsent(s[1..], key);
    } else {
      var e :| e in s && e.key == key;
      assert e in s[1..];
      WithoutLength(s[1..], key);
    }
  }

  /** Removing the last entry of a list by its key cuts it off. */
  lemma {:induction false} WithoutLast(s: seq<Entry>)
    requires DistinctKeys(s) && s != []
    ensures Without(s, s[|s| - 1].key) == s[..|s| - 1]
  {
    if |s| > 1 {
      WithoutLast(s[1..]);
      assert s[1..][..|s| - 2] == s[1..|s| - 1];
      assert [s[0]] + s[1..|s| - 1] == s[..|s| - 1];
    } else {
      assert s[1..] == [];
    }
  }

  // ------------------------------------------------------------------------ removal

  predicate ByteFree(free: seq<bool>, k: nat)
    requires |free| == SLOTS && k < SLOTS / 8
  {
    Same(free, k * 8, 8, true)
  }

  /** The test for releasing array a: it looks at bytes a to a + 3 of the bitmap. */
  predicate ReleaseTest(free: seq<bool>, a: nat)
    requires |free| == SLOTS && a < ARRAYS
  {
    ByteFree(free, a) && ByteFree(free, a + 1) && ByteFree(free, a + 2) && ByteFree(free, a + 3)
  }

  /** The slots that the test really covers: those of array 0 for a = 0, and 8a to 8a + 31 otherwise. */
  lemma ReleaseTestCovers(free: seq<bool>, a: nat)
    requires |free| == SLOTS && a < ARRAYS
    ensures ReleaseTest(free, a) <==> Same(free, 8 * a, PER_ARRAY, true)
  {
  }

  /** Removing slot s does not release an array that is still in use. */
  ghost predicate SafeSlot(free: seq<bool>, s: nat)
    requires |free| == SLOTS && s < SLOTS
  {
    ReleaseTest(free[s := true], s / PER_ARRAY) ==>
      forall i :: 0 <= i < SLOTS && i != s && i / PER_ARRAY == s / PER_ARRAY ==> free[i]
  }

  ghost predicate SafeKey(b: Bucket, key: nat) {
    forall s: nat :: s < SLOTS && Shape(b) && Matches(b, s, key) ==> SafeSlot(b.free, s)
  }

  lemma SafeKeyIsSafeSlot(b: Bucket, s: nat, key: nat, tag: nat -> nat)
    requires Sound(b, tag) && s < SLOTS && Matches(b, s, key)
    ensures SafeKey(b, key) <==> SafeSlot(b.free, s)
  {
    hide SafeSlot, SlotsAgree;
    forall i: nat | i < SLOTS && Matches(b, i, key) ensures i == s {
      if i != s { OneSlotPerKey(b, s, i, tag); }
    }
  }

  lemma SoundShape(b: Bucket, tag: nat -> nat)
    requires Sound(b, tag)
    ensures Shape(b) && NoneMissing(b)
  {}

  function RemoveSlot(b: Bucket, s: nat, key: nat): Bucket
    requires |b.free| == SLOTS && |b.tags| == SLOTS && |b.present| == ARRAYS && s < SLOTS
  {
    var free := b.free[s := true];
    b.(lru := Without(b.lru, key), free := free, tags := b.tags[s := 0],
       present := if ReleaseTest(free, s / PER_ARRAY) then b.present[s / PER_ARRAY := false] else b.present)
  }

  lemma RemoveSlotAgrees(b: Bucket, s: nat, key: nat, tag: nat -> nat)
    requires Sound(b, tag) && s < SLOTS && Matches(b, s, key)
    ensures Shape(RemoveSlot(b, s, key)) && SlotsAgree(RemoveSlot(b, s, key), tag)
  {
    hide ReleaseTest, Same;
    var c := RemoveSlot(b, s, key);
    WithoutMembers(b.lru, key);
    forall i | 0 <= i < SLOTS && !c.free[i]
      ensures c.slots[i].Some? && c.slots[i].value in c.lru && c.tags[i] == tag(c.slots[i].value.key)
    {
      OneSlotPerKey(b, s, i, tag);
    }
    forall e | e in c.lru ensures HasSlot(c, e) {
      assert HasSlot(b, e);
      var i :| 0 <= i < SLOTS && !b.free[i] && b.slots[i] == Some(e);
      assert i != s;
    }
  }

  lemma OneSlotPerKey(b: Bucket, s: nat, i: nat, tag: nat -> nat)
    requires Sound(b, tag) && s < SLOTS && i < SLOTS && !b.free[s] && !b.free[i] && s != i
    ensures b.slots[s].value.key != b.slots[i].value.key
  {
    var e, f := b.slots[s].value, b.slots[i].value;
    assert b.slots[s] != b.slots[i];
    var p :| 0 <= p < |b.lru| && b.lru[p] == e;
    var q :| 0 <= q < |b.lru| && b.lru[q] == f;
  }

  /** A removal leaves the bucket sound exactly when it is safe. */
  lemma RemoveSlotSound(b: Bucket, s: nat, key: nat, tag: nat -> nat)
    requires Sound(b, tag) && s < SLOTS && Matches(b, s, key)
    ensures Sound(RemoveSlot(b, s, key), tag) <==> SafeSlot(b.free, s)
  {
    hide ReleaseTest, SlotsAgree;
    RemoveSlotAgrees(b, s, key, tag);
    var c, a := RemoveSlot(b, s, key), s / PER_ARRAY;
    if !ReleaseTest(c.free, a) {
      assert forall i :: 0 <= i < SLOTS && !c.free[i] ==> !b.free[i];
      assert NoneMissing(c);
    } else if SafeSlot(b.free, s) {
      forall i | 0 <= i < SLOTS && !c.free[i] ensures c.present[i / PER_ARRAY] {
        assert !b.free[i] && i / PER_ARRAY != a;
      }
    } else {
      var i :| 0 <= i < SLOTS && i != s && i / PER_ARRAY == a && !b.free[i];
      assert !c.free[i] && !c.present[i / PER_ARRAY];
    }
  }

  /** Removals from array 0 are safe: its test covers it. */
  lemma FirstArrayIsSafe(free: seq<bool>, s: nat)
    requires |free| == SLOTS && s < PER_ARRAY
    ensures SafeSlot(free, s)
  {
    ReleaseTestCovers(free[s := true], 0);
    if ReleaseTest(free[s := true], 0) {
      forall i | 0 <= i < SLOTS && i != s && i / PER_ARRAY == s / PER_ARRAY ensures free[i] {
        assert i < PER_ARRAY && free[s := true][i];
      }
    }
  }

  /** So are removals from a bucket without a free slot. */
  lemma FullBucketIsSafe(free: seq<bool>, s: nat)
    requires |free| == SLOTS && s < SLOTS && Same(free, 0, SLOTS, false)
    ensures SafeSlot(free, s)
  {
    var a := s / PER_ARRAY;
    ReleaseTestCovers(free[s := true], a);
    var i := if s == 8 * a then 8 * a + 1 else 8 * a;
    assert !free[s := true][i];
  }

  /** In other arrays they need not be: with slots 32 and 63 in use, removing the first drops the second. */
  lemma OtherArraysAreNotSafe(free: seq<bool>)
    requires |free| == SLOTS && !free[32] && !free[63] && forall i :: 0 <= i < SLOTS && i != 32 && i != 63 ==> free[i]
    ensures !SafeSlot(free, 32)
  {
    ReleaseTestCovers(free[32 := true], 1);
    assert 63 / PER_ARRAY == 32 / PER_ARRAY == 1;
  }

  // ---------------------------------------------------------------- insertion and use

  /** The tables of array a, cleared if it has just been allocated. */
  function Cleared(b: Bucket, a: nat): Bucket
    requires |b.tags| == SLOTS && |b.slots| == SLOTS && |b.present| == ARRAYS && a < ARRAYS
  {
    if b.present[a] then b
    else b.(present := b.present[a := true],
            tags := seq(SLOTS, i requires 0 <= i < SLOTS => if i / PER_ARRAY == a then 0 else b.tags[i]),
            slots := seq(SLOTS, i requires 0 <= i < SLOTS => if i / PER_ARRAY == a then None else b.slots[i]))
  }

  function InsertSlot(b: Bucket, s: nat, e: Entry, t: nat): Bucket
    requires |b.free| == SLOTS && |b.tags| == SLOTS && |b.slots| == SLOTS && |b.present| == ARRAYS && s < SLOTS
  {
    var c := Cleared(b, s / PER_ARRAY);
    c.(lru := [e] + b.lru, free := b.free[s := false], tags := c.tags[s := t], slots := c.slots[s := Some(e)])
  }

  /** Clearing an array that did not exist touches no slot in use. */
  lemma ClearedSame(b: Bucket, a: nat, i: nat, tag: nat -> nat)
    requires Sound(b, tag) && a < ARRAYS && i < SLOTS && !b.free[i]
    ensures var c := Cleared(b, a); c.slots[i] == b.slots[i] && c.tags[i] == b.tags[i] && c.present[i / PER_ARRAY] && c.free == b.free
  {
    hide SlotsAgree;
  }

  lemma InsertSlotSound(b: Bucket, s: nat, e: Entry, tag: nat -> nat)
    requires Sound(b, tag) && s < SLOTS && b.free[s] && !HasKey(b.lru, e.key)
    ensures Sound(InsertSlot(b, s, e, tag(e.key)), tag)
  {
    hide Cleared;
    var c := InsertSlot(b, s, e, tag(e.key));
    ClearedPresent(b, s / PER_ARRAY);
    assert c.free == b.free[s := false];
    forall i | 0 <= i < SLOTS && !b.free[i]
      ensures c.slots[i] == b.slots[i] && c.tags[i] == b.tags[i] && c.present[i / PER_ARRAY] && !c.free[i]
    {
      ClearedSame(b, s / PER_ARRAY, i, tag);
    }
    assert !c.free[s] && c.slots[s] == Some(e);
    forall f | f in c.lru ensures HasSlot(c, f) {
      if f != e {
        assert HasSlot(b, f);
        var i :| 0 <= i < SLOTS && !b.free[i] && b.slots[i] == Some(f);
        assert !c.free[i] && c.slots[i] == Some(f);
      }
    }
  }

  lemma ClearedPresent(b: Bucket, a: nat)
    requires Shape(b) && a < ARRAYS
    ensures var c := Cleared(b, a); |c.slots| == SLOTS && |c.tags| == SLOTS && |c.present| == ARRAYS && c.present[a]
  {}

  /** Moving an entry to the front of the list of its bucket. */
  lemma TouchSound(b: Bucket, e: Entry, tag: nat -> nat)
    requires Sound(b, tag) && e in b.lru
    ensures Sound(b.(lru := [e] + Without(b.lru, e.key)), tag)
  {
    WithoutMembers(b.lru, e.key);
    var c := b.(lru := [e] + Without(b.lru, e.key));
    var p :| 0 <= p < |b.lru| && b.lru[p] == e;
    forall f | f in b.lru ensures f in c.lru {
      if f.key == e.key {
        var q :| 0 <= q < |b.lru| && b.lru[q] == f;
      }
    }
    forall f | f in c.lru ensures HasSlot(c, f) {
      assert HasSlot(b, f);
    }
  }

  lemma RemovedGone(b: Bucket, s: nat, key: nat, tag: nat -> nat)
    requires Sound(b, tag) && s < SLOTS && Matches(b, s, key)
    ensures Shape(RemoveSlot(b, s, key)) && forall i: nat :: i < SLOTS ==> !Matches(RemoveSlot(b, s, key), i, key)
  {
    hide ReleaseTest, SlotsAgree;
    var c := RemoveSlot(b, s, key);
    forall i: nat | i < SLOTS && !c.free[i] && c.present[i / PER_ARRAY] ensures c.slots[i].value.key != key {
      assert !b.free[i] && b.present[i / PER_ARRAY];
      OneSlotPerKey(b, s, i, tag);
    }
  }

  // ----------------------------------------------------------------------- counting

  /** Different elements of a list are no more than its length. */
  lemma {:induction false} DistinctFit(s: seq<Entry>, list: seq<Entry>)
    requires forall i, j :: 0 <= i < j < |s| ==> s[i] != s[j]
    requires forall e :: e in s ==> e in list
    ensures |s| <= |list|
  {
    if s != [] {
      assert s[0] in list;
      var p :| 0 <= p < |list| && list[p] == s[0];
      var rest := list[..p] + list[p + 1..];
      forall e | e in s[1..] ensures e in rest {
        assert e in s && e != s[0];
        var q :| 0 <= q < |list| && list[q] == e;
        assert e == if q < p then rest[q] else rest[q - 1];
      }
      DistinctFit(s[1..], rest);
    }
  }

  ghost predicate Owned(slots: seq<Option<Entry>>, used: set<nat>, e: Entry) {
    exists i: nat :: i in used && i < |slots| && slots[i] == Some(e)
  }

  /** Different entries need different slots. */
  lemma {:induction false} OwnersFit(lru: seq<Entry>, slots: seq<Option<Entry>>, used: set<nat>)
    requires DistinctKeys(lru) && forall e :: e in lru ==> Owned(slots, used, e)
    ensures |lru| <= |used|
  {
    if lru != [] {
      var e := lru[0];
      assert Owned(slots, used, e);
      var i: nat :| i in used && i < |slots| && slots[i] == Some(e);
      forall f | f in lru[1..] ensures Owned(slots, used - {i}, f) {
        assert f in lru && f.key != e.key && Owned(slots, used, f);
      }
      OwnersFit(lru[1..], slots, used - {i});
    }
  }

  /** Slots in use from the first on need as many entries. */
  lemma EntriesForSlots(b: Bucket, n: nat, tag: nat -> nat)
    requires Sound(b, tag) && n <= SLOTS && Same(b.free, 0, n, false)
    ensures |b.lru| >= n
  {
    var taken := seq(n, i requires 0 <= i < n => b.slots[i].value);
    forall i, j | 0 <= i < j < n ensures taken[i] != taken[j] {
      assert b.slots[i] != b.slots[j];
    }
    DistinctFit(taken, b.lru);
  }

  lemma EntriesInSlots(b: Bucket, used: set<nat>, tag: nat -> nat)
    requires Sound(b, tag) && forall i: nat :: i < SLOTS && !b.free[i] ==> i in used
    ensures |b.lru| <= |used|
  {
    forall e | e in b.lru ensures Owned(b.slots, used, e) {
      assert HasSlot(b, e);
    }
    OwnersFit(b.lru, b.slots, used);
  }

  lemma NoMoreThanSlots(b: Bucket, tag: nat -> nat)
    requires Sound(b, tag)
    ensures |b.lru| <= SLOTS
  {
    hide Sound, UpTo;
    SoundShape(b, tag);
    EntriesInSlots(b, UpTo(|b.free|), tag);
  }

  lemma FreeSlotLeavesRoom(b: Bucket, s: nat, tag: nat -> nat)
    requires Sound(b, tag) && s < SLOTS && b.free[s]
    ensures |b.lru| < SLOTS
  {
    hide Sound, UpTo;
    SoundShape(b, tag);
    var used := UpTo(|b.free|) - {s};
    assert |used| == SLOTS - 1;
    EntriesInSlots(b, used, tag);
  }

  /** The bucket has as many entries as slots exactly when no slot is free. */
  lemma FullBucket(b: Bucket, tag: nat -> nat)
    requires Sound(b, tag)
    ensures |b.lru| <= SLOTS && |b.free| == SLOTS
    ensures |b.lru| == SLOTS <==> Same(b.free, 0, SLOTS, false)
  {
    SoundShape(b, tag);
    NoMoreThanSlots(b, tag);
    if Same(b.free, 0, SLOTS, false) {
      EntriesForSlots(b, SLOTS, tag);
    } else {
      hide Sound;
      var s: nat :| s < SLOTS && b.free[s];
      FreeSlotLeavesRoom(b, s, tag);
    }
  }

  // -------------------------------------------------- buckets that use array 0 only

  ghost predicate Low(b: Bucket) {
    forall i :: PER_ARRAY <= i < |b.free| ==> b.free[i]
  }

  lemma LowIsSafe(b: Bucket, key: nat)
    requires Low(b)
    ensures SafeKey(b, key)
  {
    forall s: nat | s < SLOTS && Shape(b) && Matches(b, s, key) ensures SafeSlot(b.free, s) {
      FirstArrayIsSafe(b.free, s);
    }
  }

  lemma RemoveKeepsLow(b: Bucket, s: nat, key: nat)
    requires Shape(b) && s < SLOTS && Low(b)
    ensures Low(RemoveSlot(b, s, key))
  {}

  /** While the bucket has less than 32 entries, the first free slot is in array 0. */
  lemma InsertKeepsLow(b: Bucket, s: nat, e: Entry, tag: nat -> nat)
    requires Sound(b, tag) && s < SLOTS && Same(b.free, 0, s, false) && Low(b) && |b.lru| < PER_ARRAY
    ensures Low(InsertSlot(b, s, e, tag(e.key)))
  {
    SoundShape(b, tag);
    hide Sound;
    if s >= PER_ARRAY {
      EntriesForSlots(b, PER_ARRAY, tag);
    }
  }
}
