/** The cache: buckets selected by the hash of the key, and one list of all entries, most recently used first. */
module LruCache {
  import opened Options
  import opened CacheBucket

  // ------------------------------------------------------- the list of one bucket

  /** The entries of bucket k, in the order of the list of all entries. */
  ghost function Filter(s: seq<Entry>, place: nat -> nat, k: nat): seq<Entry> {
    if s == [] then []
    else if place(s[0].key) == k then [s[0]] + Filter(s[1..], place, k)
    else Filter(s[1..], place, k)
  }

  lemma {:induction false} FilterMembers(s: seq<Entry>, place: nat -> nat, k: nat)
    ensures forall e :: e in Filter(s, place, k) <==> e in s && place(e.key) == k
  {
    if s != [] {
      FilterMembers(s[1..], place, k);
      assert s == [s[0]] + s[1..];
    }
  }

  /** Removing an entry from the list of all entries removes it from the list of its bucket. */
  lemma {:induction false} FilterWithout(s: seq<Entry>, place: nat -> nat, k: nat, key: nat)
    ensures Filter(Without(s, key), place, k) == Without(Filter(s, place, k), key)
  {
    if s != [] {
      FilterWithout(s[1..], place, k, key);
      var rest, tail := Without(s[1..], key), Filter(s[1..], place, k);
      assert ([s[0]] + rest)[1..] == rest && ([s[0]] + tail)[1..] == tail;
    }
  }

  lemma FilterWithoutElsewhere(s: seq<Entry>, place: nat -> nat, k: nat, key: nat)
    requires place(key) != k
    ensures Filter(Without(s, key), place, k) == Filter(s, place, k)
  {
    FilterWithout(s, place, k, key);
    FilterMembers(s, place, k);
    WithoutAbsent(Filter(s, place, k), key);
  }

  lemma FilterPush(e: Entry, s: seq<Entry>, place: nat -> nat, k: nat)
    ensures Filter([e] + s, place, k) == (if place(e.key) == k then [e] else []) + Filter(s, place, k)
  {
    assert ([e] + s)[1..] == s;
  }

  // -------------------------------------------------------------------- coherence

  ghost predicate Coherent(all: seq<Entry>, buckets: seq<Bucket>, place: nat -> nat, tag: nat -> nat) {
    forall k :: 0 <= k < |buckets| ==> Sound(buckets[k], tag) && buckets[k].lru == Filter(all, place, k)
  }

  lemma RemoveCoherent(all: seq<Entry>, buckets: seq<Bucket>, place: nat -> nat, tag: nat -> nat, key: nat, s: nat)
    requires Coherent(all, buckets, place, tag) && place(key) < |buckets| && s < SLOTS
    requires Sound(buckets[place(key)], tag) && Matches(buckets[place(key)], s, key)
    ensures var k := place(key);
            Coherent(Without(all, key), buckets[k := RemoveSlot(buckets[k], s, key)], place, tag) <==> SafeKey(buckets[k], key)
  {
    hide Sound, SafeSlot, SafeKey, Filter, Matches;
    var k := place(key);
    SoundShape(buckets[k], tag);
    SafeKeyIsSafeSlot(buckets[k], s, key, tag);
    RemoveSlotSound(buckets[k], s, key, tag);
    RemovedList(buckets[k], s, key, tag);
    FilterWithout(all, place, k, key);
    var buckets' := buckets[k := RemoveSlot(buckets[k], s, key)];
    forall j | 0 <= j < |buckets| && j != k ensures buckets'[j].lru == Filter(Without(all, key), place, j) {
      FilterWithoutElsewhere(all, place, j, key);
    }
    assert buckets'[k] == RemoveSlot(buckets[k], s, key);
  }

  lemma RemovedList(b: Bucket, s: nat, key: nat, tag: nat -> nat)
    requires Sound(b, tag) && s < SLOTS
    ensures RemoveSlot(b, s, key).lru == Without(b.lru, key)
  {}

  lemma InsertCoherent(all: seq<Entry>, buckets: seq<Bucket>, place: nat -> nat, tag: nat -> nat, e: Entry, s: nat)
    requires Coherent(all, buckets, place, tag) && place(e.key) < |buckets| && s < SLOTS && !HasKey(all, e.key)
    requires Sound(buckets[place(e.key)], tag) && buckets[place(e.key)].free[s]
    ensures var k := place(e.key);
            Coherent([e] + all, buckets[k := InsertSlot(buckets[k], s, e, tag(e.key))], place, tag)
  {
    hide Sound, Filter;
    var k := place(e.key);
    FilterMembers(all, place, k);
    SoundShape(buckets[k], tag);
    InsertSlotSound(buckets[k], s, e, tag);
    InsertedList(buckets[k], s, e, tag(e.key), tag);
    var buckets' := buckets[k := InsertSlot(buckets[k], s, e, tag(e.key))];
    forall j | 0 <= j < |buckets| ensures buckets'[j].lru == Filter([e] + all, place, j) {
      FilterPush(e, all, place, j);
    }
  }

  lemma InsertedList(b: Bucket, s: nat, e: Entry, t: nat, tag: nat -> nat)
    requires Sound(b, tag) && s < SLOTS
    ensures InsertSlot(b, s, e, t).lru == [e] + b.lru && InsertSlot(b, s, e, t).dirty == b.dirty
  {}

  lemma TouchCoherent(all: seq<Entry>, buckets: seq<Bucket>, place: nat -> nat, tag: nat -> nat, e: Entry)
    requires Coherent(all, buckets, place, tag) && place(e.key) < |buckets| && e in all
    ensures var k := place(e.key); var b := buckets[k];
            Coherent([e] + Without(all, e.key), buckets[k := b.(lru := [e] + Without(b.lru, e.key))], place, tag)
  {
    hide Sound, Filter;
    var k := place(e.key);
    var b := buckets[k];
    FilterMembers(all, place, k);
    TouchSound(b, e, tag);
    var buckets' := buckets[k := b.(lru := [e] + Without(b.lru, e.key))];
    forall j | 0 <= j < |buckets| ensures buckets'[j].lru == Filter([e] + Without(all, e.key), place, j) {
      FilterPush(e, Without(all, e.key), place, j);
      if j == k {
        FilterWithout(all, place, k, e.key);
      } else {
        FilterWithoutElsewhere(all, place, j, e.key);
      }
    }
  }

  /** A key is in the cache if and only if a slot of its bucket holds it, with its tag. */
  lemma KeyHasSlot(all: seq<Entry>, buckets: seq<Bucket>, place: nat -> nat, tag: nat -> nat, key: nat)
    requires Coherent(all, buckets, place, tag) && place(key) < |buckets|
    ensures Shape(buckets[place(key)]) && NoneMissing(buckets[place(key)]) && Sound(buckets[place(key)], tag)
    ensures HasKey(all, key) <==>
      exists s :: 0 <= s < SLOTS && Matches(buckets[place(key)], s, key) && buckets[place(key)].tags[s] == tag(key)
  {
    var b := buckets[place(key)];
    FilterMembers(all, place, place(key));
    if HasKey(all, key) {
      var e :| e in all && e.key == key;
      assert HasSlot(b, e);
      var s :| 0 <= s < SLOTS && !b.free[s] && b.slots[s] == Some(e);
      assert Matches(b, s, key);
    }
  }

  lemma SlotHasEntry(all: seq<Entry>, buckets: seq<Bucket>, place: nat -> nat, tag: nat -> nat, key: nat, s: nat)
    requires Coherent(all, buckets, place, tag) && place(key) < |buckets| && s < SLOTS
    requires Sound(buckets[place(key)], tag) && Matches(buckets[place(key)], s, key)
    ensures var e := buckets[place(key)].slots[s].value; e in all && e.key == key
  {
    FilterMembers(all, place, place(key));
  }

  // -------------------------------------------------------------------- the cache

  class Cache {
    const max: nat                 // entries before the least recently used one is evicted
    const count: nat               // buckets
    const hash: nat -> nat
    const tag: nat -> nat          // the second hash, stored with the slot
    var buckets: seq<Bucket>
    var all: seq<Entry>            // global_lru_link
    var size: nat
    var dirtyMain: nat
    ghost var deleted: seq<nat>    // the values given back to the user

    ghost function Place(): nat -> nat
      requires count > 0
    {
      (key: nat) => hash(key) % count
    }

    ghost predicate Valid()
      reads this
    {
      && max >= 1 && count > 0 && |buckets| == count
      && size == |all| <= max && DistinctKeys(all)
      && Coherent(all, buckets, Place(), tag)
    }

    /** Removing this key does not release an array of slots that is still in use. */
    ghost predicate Safe(key: nat)
      requires Valid()
      reads this
    {
      SafeKey(buckets[Place()(key)], key)
    }

    ghost predicate Clean(e: Entry)
      requires Valid()
      reads this
    {
      e.dirtyMain == dirtyMain && e.dirtyBucket == buckets[Place()(e.key)].dirty
    }

    ghost predicate AllLow()
      reads this
    {
      forall k :: 0 <= k < |buckets| ==> Low(buckets[k])
    }

    /** While only array 0 of each bucket is used, every removal is safe. */
    lemma LowMeansSafe(key: nat)
      requires Valid() && AllLow()
      ensures Safe(key)
    {
      LowIsSafe(buckets[Place()(key)], key);
    }

    constructor (max: nat, count: nat, hash: nat -> nat, tag: nat -> nat)
      requires max >= 1 && count > 0
      ensures Valid() && AllLow() && all == [] && deleted == [] && forall k :: 0 <= k < |buckets| ==> buckets[k] == Empty()
      ensures this.max == max && this.count == count && this.hash == hash && this.tag == tag
    {
      this.max, this.count, this.hash, this.tag := max, count, hash, tag;
      buckets := seq(count, _ => Empty());
      all, size, dirtyMain, deleted := [], 0, 0, [];
    }

    /** Every entry of the bucket becomes stale. */
    method MarkDirty(k: nat)
      requires Valid() && k < count
      modifies this`buckets
      ensures Valid() && (old(AllLow()) ==> AllLow())
      ensures buckets == old(buckets)[k := old(buckets)[k].(dirty := old(buckets)[k].dirty + 1)]
    {
      buckets := buckets[k := buckets[k].(dirty := buckets[k].dirty + 1)];
    }

    method Remove(key: nat) returns (ok: bool)
      requires Valid()
      modifies this`buckets, this`all, this`size, this`deleted
      ensures ok <==> HasKey(old(all), key)
      ensures all == Without(old(all), key) && size == |all|
      ensures Valid() <==> (ok ==> old(Safe(key)))
      ensures SameCounters(old(buckets), buckets) && (old(AllLow()) ==> AllLow())
      ensures !ok ==> buckets == old(buckets) && deleted == old(deleted)
      ensures ok ==> exists e :: e in old(all) && e.key == key && deleted == old(deleted) + [e.value]
      ensures ok ==> NoMatch(buckets[Place()(key)], key)
      ensures ok ==> RemovedFrom(old(buckets), buckets, Place()(key), key)
    {
      hide Sound, SafeKey, Filter, Matches, Coherent, Shape;
      var k := hash(key) % count;
      KeyHasSlot(all, buckets, Place(), tag, key);
      var b := buckets[k];
      var s := Locate(b, key, tag(key), 0);
      if s < 0 {
        WithoutAbsent(all, key);
        return false;
      }
      SlotHasEntry(all, buckets, Place(), tag, key, s);
      RemoveCoherent(all, buckets, Place(), tag, key, s);
      RemovedGone(b, s, key, tag);
      WithoutLength(all, key);
      WithoutMembers(all, key);
      if AllLow() { RemoveKeepsLow(b, s, key); }
      deleted := deleted + [b.slots[s].value.value];
      all := Without(all, key);
      size := size - 1;
      buckets := buckets[k := RemoveSlot(b, s, key)];
      assert RemovedFrom(old(buckets), buckets, k, key);
      ok := true;
    }

    /** The entry becomes the most recent one, in both lists. */
    method Touch(k: nat, e: Entry)
      requires Valid() && e in all && k == Place()(e.key)
      modifies this`buckets, this`all
      ensures Valid() && all == [e] + Without(old(all), e.key)
      ensures SameCounters(old(buckets), buckets) && OnlyRelinked(old(buckets), buckets) && (old(AllLow()) ==> AllLow())
    {
      hide Sound, Filter, Coherent;
      TouchCoherent(all, buckets, Place(), tag, e);
      WithoutLength(all, e.key);
      WithoutMembers(all, e.key);
      all := [e] + Without(all, e.key);
      buckets := buckets[k := buckets[k].(lru := [e] + Without(buckets[k].lru, e.key))];
    }

    /** A hit returns the value and makes the entry the most recent; a stale entry is removed instead. */
    method Search(key: nat) returns (r: Option<nat>)
      requires Valid()
      modifies this`buckets, this`all, this`size, this`deleted
      ensures !HasKey(old(all), key) ==> r == None && all == old(all) && deleted == old(deleted) && Valid()
      ensures forall e :: e in old(all) && e.key == key && old(Clean(e)) ==>
        r == Some(e.value) && all == [e] + Without(old(all), key) && deleted == old(deleted) && Valid()
      ensures forall e :: e in old(all) && e.key == key && !old(Clean(e)) ==>
        r == None && all == Without(old(all), key) && deleted == old(deleted) + [e.value] && (Valid() <==> old(Safe(key)))
      ensures SameCounters(old(buckets), buckets) && (old(AllLow()) ==> AllLow())
      ensures !HasKey(old(all), key) ==> buckets == old(buckets)
      ensures r.Some? ==> OnlyRelinked(old(buckets), buckets)
    {
      hide Sound, SafeKey, Filter, Matches, Coherent, Shape, OnlyRelinked, Without, Low;
      var k := hash(key) % count;
      KeyHasSlot(all, buckets, Place(), tag, key);
      var b := buckets[k];
      var s := Locate(b, key, tag(key), 0);
      if s < 0 { return None; }
      SlotHasEntry(all, buckets, Place(), tag, key, s);
      var e := b.slots[s].value;
      OneEntryPerKey(all, e);
      if e.dirtyMain == dirtyMain && e.dirtyBucket == b.dirty {
        Touch(k, e);
        return Some(e.value);
      }
      var ok := Remove(key);
      NoMatchShape(buckets[k], key);
      s := Locate(buckets[k], key, tag(key), s);
      NoMatchAt(buckets[k], key, s);
      assert s < 0;
      r := None;
    }

    /** When the cache is full, evict the least recently used entry. */
    method MakeRoom()
      requires Valid() && (size >= max ==> Safe(all[|all| - 1].key))
      modifies this`buckets, this`all, this`size, this`deleted
      ensures Valid() && size < max
      ensures all == if old(size) >= max then old(all)[..|old(all)| - 1] else old(all)
      ensures deleted == old(deleted) + if old(size) >= max then [old(all)[|old(all)| - 1].value] else []
      ensures old(size) < max ==> buckets == old(buckets)
      ensures SameCounters(old(buckets), buckets) && (old(AllLow()) ==> AllLow())
    {
      hide SafeKey, Coherent;
      if size >= max {
        var victim := all[|all| - 1];
        assert HasKey(all, victim.key);
        WithoutLast(all);
        OneEntryPerKey(all, victim);
        var ok := Remove(victim.key);
      }
    }

    /** The first free slot of a bucket; if it has none, its least recently used entry is evicted. */
    method FindSlot(k: nat) returns (s: int)
      requires Valid() && k < count
      modifies this`buckets, this`all, this`size, this`deleted
      ensures Valid() && 0 <= s < SLOTS && |buckets[k].free| == SLOTS
      ensures buckets[k].free[s] && Same(buckets[k].free, 0, s, false)
      ensures all == Kept(old(all), Place(), k) && deleted == old(deleted) + GivenBack(old(all), Place(), k)
      ensures SameCounters(old(buckets), buckets) && (old(AllLow()) ==> AllLow())
      ensures old(|Filter(all, Place(), k)|) < SLOTS ==> buckets == old(buckets)
    {
      hide Sound, SafeKey, Filter, Coherent, Safe;
      BucketIsSound(all, buckets, Place(), tag, k);
      FullBucket(buckets[k], tag);
      s := FirstFree(buckets[k].free);
      if s < 0 {
        EvictFrom(k);
        BucketIsSound(all, buckets, Place(), tag, k);
        FullBucket(buckets[k], tag);
        s := FirstFree(buckets[k].free);
      }
    }

    /** Evict the least recently used entry of a bucket without a free slot. */
    method EvictFrom(k: nat)
      requires Valid() && k < count && |Filter(all, Place(), k)| == SLOTS
      modifies this`buckets, this`all, this`size, this`deleted
      ensures Valid() && all == Kept(old(all), Place(), k) && |Filter(all, Place(), k)| < SLOTS
      ensures deleted == old(deleted) + GivenBack(old(all), Place(), k)
      ensures SameCounters(old(buckets), buckets) && (old(AllLow()) ==> AllLow())
    {
      hide SafeKey, Filter, Coherent;
      BucketVictim(all, buckets, Place(), tag, k);
      var victim := buckets[k].lru[|buckets[k].lru| - 1];
      OneEntryPerKey(all, victim);
      var ok := Remove(victim.key);
    }

    /**
      The new entry becomes the most recent one.  A full cache loses its least recently
      used entry for it, and a full bucket then the least recently used of its own.
     */
    method Insert(key: nat, value: nat, memory: bool) returns (ok: bool)
      requires Valid() && !HasKey(all, key) && (size >= max ==> Safe(all[|all| - 1].key))
      modifies this`buckets, this`all, this`size, this`deleted
      ensures memory ==> ok
      ensures Valid() <==> ok
      ensures var e := Entry(key, value, dirtyMain, old(buckets)[Place()(key)].dirty);
              all == (if ok then [e] else []) + Kept(Trimmed(old(all), max), Place(), Place()(key))
      ensures deleted == old(deleted) + (if old(size) >= max then [old(all)[|old(all)| - 1].value] else [])
                         + GivenBack(Trimmed(old(all), max), Place(), Place()(key))
      ensures SameCounters(old(buckets), buckets)
      ensures ok && old(size) < max && old(|Filter(all, Place(), Place()(key))|) < SLOTS ==>
        InsertedInto(old(buckets), buckets, Place()(key), Entry(key, value, dirtyMain, old(buckets)[Place()(key)].dirty), tag(key))
      ensures ok && old(AllLow()) && (max <= PER_ARRAY || old(|Filter(all, Place(), Place()(key))|) < PER_ARRAY) ==> AllLow()
    {
      hide Sound, SafeKey, Filter, Coherent, Safe, InsertedInto, Kept, GivenBack, Low, AllLow;
      var k := hash(key) % count;
      KeptMembers(all, max, Place(), k);
      MakeRoom();
      var s := FindSlot(k);
      ok := Store(k, s, Entry(key, value, dirtyMain, buckets[k].dirty), memory);
    }

    /** Fill the slot found, allocating its array if it has none; without memory the slot is lost. */
    method Store(k: nat, s: nat, e: Entry, memory: bool) returns (ok: bool)
      requires Valid() && size < max && k == Place()(e.key) && !HasKey(all, e.key)
      requires s < SLOTS && |buckets[k].free| == SLOTS && buckets[k].free[s] && Same(buckets[k].free, 0, s, false)
      modifies this`buckets, this`all, this`size
      ensures memory ==> ok
      ensures Valid() <==> ok
      ensures all == (if ok then [e] else []) + old(all)
      ensures SameCounters(old(buckets), buckets) && (ok ==> InsertedInto(old(buckets), buckets, k, e, tag(e.key)))
      ensures ok && old(AllLow()) && |Filter(old(all), Place(), k)| < PER_ARRAY ==> AllLow()
    {
      hide Sound, SafeKey, Filter, Coherent, Safe, InsertSlot, Low;
      BucketIsSound(all, buckets, Place(), tag, k);
      SoundShape(buckets[k], tag);
      var b := buckets[k];
      if !b.present[s / PER_ARRAY] && !memory {
        buckets := buckets[k := b.(free := b.free[s := false])];
        MissingArray(all, buckets, Place(), tag, k, s);
        return false;
      }
      InsertCoherent(all, buckets, Place(), tag, e, s);
      InsertedList(b, s, e, tag(e.key), tag);
      if AllLow() && |b.lru| < PER_ARRAY {
        InsertKeepsLow(b, s, e, tag);
      }
      buckets := buckets[k := InsertSlot(b, s, e, tag(e.key))];
      assert InsertedInto(old(buckets), buckets, k, e, tag(e.key));
      all := [e] + all;
      size := size + 1;
      ok := true;
    }
  }

  /** What is left of the entries when a full cache has to give one up. */
  ghost function Trimmed(all: seq<Entry>, max: nat): seq<Entry> {
    if |all| >= max && all != [] then all[..|all| - 1] else all
  }

  /** What is left of the entries when a full bucket has to give one up. */
  ghost function Kept(all: seq<Entry>, place: nat -> nat, k: nat): seq<Entry> {
    var mine := Filter(all, place, k);
    if |mine| >= SLOTS then Without(all, mine[|mine| - 1].key) else all
  }

  /** Evictions add no entry, to the cache or to the bucket. */
  lemma KeptMembers(all: seq<Entry>, max: nat, place: nat -> nat, k: nat)
    requires DistinctKeys(all) && max >= 1 && |all| <= max
    ensures var kept := Kept(Trimmed(all, max), place, k);
            && (forall e :: e in kept ==> e in all)
            && |Filter(kept, place, k)| <= |Filter(all, place, k)|
            && |Filter(kept, place, k)| <= |kept| < max
  {
    hide Filter;
    var trimmed := Trimmed(all, max);
    if |all| >= max {
      WithoutLast(all);
      FilterWithout(all, place, k, all[|all| - 1].key);
      WithoutShorter(Filter(all, place, k), all[|all| - 1].key);
    }
    var mine := Filter(trimmed, place, k);
    if |mine| >= SLOTS {
      var key := mine[|mine| - 1].key;
      WithoutMembers(trimmed, key);
      WithoutShorter(trimmed, key);
      FilterWithout(trimmed, place, k, key);
      WithoutShorter(mine, key);
    }
    FilterShorter(Kept(trimmed, place, k), place, k);
  }

  lemma {:induction false} FilterShorter(s: seq<Entry>, place: nat -> nat, k: nat)
    ensures |Filter(s, place, k)| <= |s|
  {
    if s != [] { FilterShorter(s[1..], place, k); }
  }

  lemma MissingArray(all: seq<Entry>, buckets: seq<Bucket>, place: nat -> nat, tag: nat -> nat, k: nat, s: nat)
    requires k < |buckets| && s < SLOTS && |buckets[k].free| == SLOTS && |buckets[k].present| == ARRAYS
    requires !buckets[k].free[s] && !buckets[k].present[s / PER_ARRAY]
    ensures !Coherent(all, buckets, place, tag)
  {
    assert !Sound(buckets[k], tag);
  }

  /** The value given back when a full bucket has to give one up. */
  ghost function GivenBack(all: seq<Entry>, place: nat -> nat, k: nat): seq<nat> {
    var mine := Filter(all, place, k);
    if |mine| >= SLOTS then [mine[|mine| - 1].value] else []
  }

  lemma BucketIsSound(all: seq<Entry>, buckets: seq<Bucket>, place: nat -> nat, tag: nat -> nat, k: nat)
    requires Coherent(all, buckets, place, tag) && k < |buckets|
    ensures Sound(buckets[k], tag) && buckets[k].lru == Filter(all, place, k)
  {}

  /** The least recently used entry of a full bucket can be removed safely, which leaves a slot. */
  lemma BucketVictim(all: seq<Entry>, buckets: seq<Bucket>, place: nat -> nat, tag: nat -> nat, k: nat)
    requires Coherent(all, buckets, place, tag) && k < |buckets| && |Filter(all, place, k)| == SLOTS
    ensures buckets[k].lru == Filter(all, place, k)
    ensures var victim := buckets[k].lru[SLOTS - 1];
            && victim in all && HasKey(all, victim.key) && place(victim.key) == k && SafeKey(buckets[k], victim.key)
            && |Filter(Without(all, victim.key), place, k)| < SLOTS
  {
    hide Sound, SafeKey, Coherent, Filter;
    BucketIsSound(all, buckets, place, tag, k);
    FullBucket(buckets[k], tag);
    var victim := buckets[k].lru[SLOTS - 1];
    FullBucketSafe(buckets[k], victim.key);
    FilterMembers(all, place, k);
    assert victim in Filter(all, place, k);
    FilterWithout(all, place, k, victim.key);
    WithoutShorter(buckets[k].lru, victim.key);
  }

  lemma {:induction false} WithoutShorter(s: seq<Entry>, key: nat)
    ensures |Without(s, key)| <= |s|
    ensures HasKey(s, key) ==> |Without(s, key)| < |s|
  {
    if s != [] {
      WithoutShorter(s[1..], key);
      if HasKey(s, key) && s[0].key != key {
        var e :| e in s && e.key == key;
        assert e in s[1..];
      }
    }
  }

  lemma FullBucketSafe(b: Bucket, key: nat)
    requires |b.free| == SLOTS && Same(b.free, 0, SLOTS, false)
    ensures SafeKey(b, key)
  {
    forall s: nat | s < SLOTS && Shape(b) && Matches(b, s, key) ensures SafeSlot(b.free, s) {
      FullBucketIsSafe(b.free, s);
    }
  }

  function Empty(): Bucket {
    Bucket([], seq(SLOTS, _ => true), seq(ARRAYS, _ => false), seq(SLOTS, _ => 0), seq(SLOTS, _ => None), 0)
  }

  ghost predicate SameCounters(buckets: seq<Bucket>, buckets': seq<Bucket>) {
    |buckets'| == |buckets| && forall k :: 0 <= k < |buckets| ==> buckets'[k].dirty == buckets[k].dirty
  }

  /** Entries changed places in the lists and stayed in their slots. */
  ghost predicate OnlyRelinked(buckets: seq<Bucket>, buckets': seq<Bucket>) {
    |buckets'| == |buckets| && forall k :: 0 <= k < |buckets| ==> buckets'[k] == buckets[k].(lru := buckets'[k].lru)
  }

  /** An entry that became the most recent one is still among the same entries. */
  lemma TouchedMembers(all: seq<Entry>, e: Entry)
    requires DistinctKeys(all) && e in all
    ensures forall f :: f in [e] + Without(all, e.key) <==> f in all
  {
    WithoutMembers(all, e.key);
    OneEntryPerKey(all, e);
  }

  /**
    A lookup as its caller sees it: a clean entry is found, and stays; nothing that was clean
    becomes stale or goes away; what is not found is not in the cache afterwards.
   */
  method Lookup(c: Cache, key: nat) returns (r: Option<nat>)
    requires c.Valid()
    requires forall e :: e in c.all && e.key == key ==> c.Clean(e) || c.Safe(key)
    modifies c`buckets, c`all, c`size, c`deleted
    ensures c.Valid() && SameCounters(old(c.buckets), c.buckets)
    ensures forall e :: e in old(c.all) && e.key == key && old(c.Clean(e)) ==> r == Some(e.value)
    ensures forall e :: e in c.all ==> e in old(c.all)
    ensures forall e :: e in old(c.all) && old(c.Clean(e)) ==> e in c.all
    ensures r.None? <==> !HasKey(c.all, key)
    ensures r.Some? ==> (forall e :: e in old(c.all) ==> e in c.all) && c.deleted == old(c.deleted)
    ensures forall e :: e in c.all && e.key == key ==> old(c.Clean(e)) && r == Some(e.value)
  {
    hide Coherent, SafeKey, DistinctKeys, Without;
    WithoutMembers(c.all, key);
    r := c.Search(key);
    if HasKey(old(c.all), key) {
      ghost var e :| e in old(c.all) && e.key == key;
      OneEntryPerKey(old(c.all), e);
      TouchedMembers(old(c.all), e);
      assert old(c.Clean(e)) ==> r == Some(e.value);
    }
  }

  /** A hit makes nothing stale: the same key hits again, and so does every key with a clean entry. */
  method SearchTwice(c: Cache, key: nat, other: nat) returns (r1: Option<nat>, r2: Option<nat>, r3: Option<nat>)
    requires c.Valid()
    requires forall e :: e in c.all && e.key in {key, other} ==> c.Clean(e)
    modifies c`buckets, c`all, c`size, c`deleted
    ensures c.Valid() && r2 == r1 && (r1.Some? <==> HasKey(old(c.all), key))
    ensures forall e :: e in old(c.all) && e.key == key ==> r1 == Some(e.value)
    ensures forall e :: e in old(c.all) && e.key == other ==> r3 == Some(e.value)
    ensures forall e :: e in old(c.all) && old(c.Clean(e)) ==> e in c.all && c.Clean(e)
  {
    hide Coherent, SafeKey, DistinctKeys;
    r1 := Lookup(c, key);
    r2 := Lookup(c, key);
    r3 := Lookup(c, other);
  }

  /** One slot of bucket k, which held the key, was cleared. */
  ghost predicate RemovedFrom(buckets: seq<Bucket>, buckets': seq<Bucket>, k: nat, key: nat) {
    k < |buckets| && Shape(buckets[k]) &&
    exists s: nat :: s < SLOTS && Matches(buckets[k], s, key) && buckets' == buckets[k := RemoveSlot(buckets[k], s, key)]
  }

  /** The first free slot of bucket k was filled. */
  ghost predicate InsertedInto(buckets: seq<Bucket>, buckets': seq<Bucket>, k: nat, e: Entry, t: nat) {
    k < |buckets| && Shape(buckets[k]) &&
    exists s: nat :: s < SLOTS && buckets[k].free[s] && Same(buckets[k].free, 0, s, false)
                     && buckets' == buckets[k := InsertSlot(buckets[k], s, e, t)]
  }

  ghost predicate NoMatch(b: Bucket, key: nat) {
    Shape(b) && forall i: nat :: i < SLOTS ==> !Matches(b, i, key)
  }

  lemma NoMatchShape(b: Bucket, key: nat)
    requires NoMatch(b, key)
    ensures Shape(b)
  {}

  lemma NoMatchAt(b: Bucket, key: nat, s: int)
    requires NoMatch(b, key)
    ensures 0 <= s < SLOTS ==> !Matches(b, s, key)
  {}

  lemma OneEntryPerKey(all: seq<Entry>, e: Entry)
    requires DistinctKeys(all) && e in all
    ensures forall f :: f in all && f.key == e.key ==> f == e
  {
    var i :| 0 <= i < |all| && all[i] == e;
    forall f | f in all && f.key == e.key ensures f == e {
      var j :| 0 <= j < |all| && all[j] == f;
    }
  }
}
