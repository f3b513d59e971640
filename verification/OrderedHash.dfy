/** The insertion-ordered hash table: values in a sequence, and a Robin Hood bucket array indexing
    them by hash. */
module OrderedHash {
  import opened Bits
  import opened LoadFactor
  import opened OrderedSpec
  import opened RangeErase
  import opened RangeEraseExact
  import opened RangeEraseHomes
  import opened RobinHood

  const MAX_SIZE := EMPTY_MARKER_INDEX - 1
  const GROW_PROBES := 128
  const GROW_MIN_LOAD_PERCENT := 15

  type Hash64 = h: nat | h < WORD

  const EMPTY_BUCKET := Bucket(EMPTY_MARKER_INDEX, 0)

  lemma HalfWordBounds(count: nat)
    requires RoundsWithin(count, HALF_WORD)
    ensures count <= WORD / 2
    ensures forall r: nat | LeastPow2AtLeast(r, count) :: r <= HALF_WORD
  {
  }

  lemma GrownCount(n: nat)
    requires n == 0 || IsPow2(n)
    ensures IsPow2(Max(1, n * 2))
    ensures forall r: nat | LeastPow2AtLeast(r, Max(1, n * 2)) :: r == Max(1, n * 2)
  {
    assert 1 == Pow2(0);
    if n > 0 {
      var k: nat :| n == Pow2(k);
      assert n * 2 == Pow2(k + 1);
    }
  }

  /** A C++ call that may throw std::length_error. */
  datatype Result<T> = Ok(value: T) | LengthError

  /** V is the stored value type; K stands for keys up to KeyEqual, so that keys the container
      compares equal are equal here and have one hash. */
  class Table<K(==), V> {
    const keyOf: V -> K
    const hashOf: K -> Hash64
    const maxBucketCount: nat

    var buckets: array<Bucket>
    var firstReadable: bool // m_first_or_empty_bucket points to a bucket
    var mask: nat
    var values: seq<V>
    var growOnNextInsert: bool
    var maxLoadFactor: real
    var loadThreshold: nat

    ghost var pos: map<nat, nat>

    function Hashes(vals: seq<V>): seq<nat> {
      seq(|vals|, i requires 0 <= i < |vals| => hashOf(keyOf(vals[i])) % HALF_WORD)
    }

    // ---------- Invariant ----------

    ghost predicate Masked()
      reads this
    {
      Masks(mask, buckets.Length)
    }

    ghost predicate Sized()
      reads this
    {
      Masked() && Loads(buckets.Length, maxBucketCount, maxLoadFactor, loadThreshold)
    }

    ghost predicate Indexed()
      reads this, buckets
    {
      Indexes(buckets[..], pos, Hashes(values))
    }

    ghost predicate Valid()
      reads this, buckets
    {
      && firstReadable
      && Sized()
      && Indexed()
      && |values| <= MAX_SIZE
      && Distinct(keyOf, values)
    }

    /** Some power of two that the allocator can still provide is at least count. */
    ghost predicate Allocatable(count: nat) {
      RoundsWithin(count, maxBucketCount)
    }

    // ---------- Construction and load policy ----------

    constructor (bucketCount: nat, keyOf: V -> K, hashOf: K -> Hash64, maxBucketCount: nat, maxLoad: real)
      requires maxBucketCount <= HALF_WORD
      requires bucketCount > 0 ==> RoundsWithin(bucketCount, maxBucketCount)
      ensures Valid() && fresh(buckets) && values == [] && !growOnNextInsert
      ensures this.keyOf == keyOf && this.hashOf == hashOf && this.maxBucketCount == maxBucketCount
      ensures if bucketCount == 0 then buckets.Length == 0 else LeastPow2AtLeast(buckets.Length, bucketCount)
      ensures IsClamped(maxLoadFactor, maxLoad)
    {
      this.keyOf, this.hashOf, this.maxBucketCount := keyOf, hashOf, maxBucketCount;
      buckets, firstReadable, mask := new Bucket[0], true, 0;
      values, growOnNextInsert, pos := [], false, map[];
      maxLoadFactor, loadThreshold := 0.1, 0;
      new;
      if bucketCount > 0 {
        HalfWordBounds(bucketCount);
        var count := RoundUpToPowerOfTwo(bucketCount);
        buckets, mask := new Bucket[count](_ => EMPTY_BUCKET), count - 1;
      }
      AllEmptyIsFine(buckets[..]);
      SetMaxLoadFactor(maxLoad);
    }

    /** The constructor with its length_error: a request the allocator cannot round up. */
    static method Create(bucketCount: nat, keyOf: V -> K, hashOf: K -> Hash64, maxBucketCount: nat, maxLoad: real)
        returns (r: Result<Table<K, V>>)
      requires maxBucketCount <= HALF_WORD
      ensures r.LengthError? <==> bucketCount > 0 && !RoundsWithin(bucketCount, maxBucketCount)
      ensures r.Ok? ==> fresh(r.value) && r.value.Valid() && r.value.values == []
    {
      if bucketCount > maxBucketCount {
        return LengthError;
      }
      if bucketCount > 0 {
        var count := RoundUpToPowerOfTwo(bucketCount);
        RoundedFits(count, bucketCount, maxBucketCount);
        if count > maxBucketCount {
          return LengthError;
        }
      }
      var table := new Table(bucketCount, keyOf, hashOf, maxBucketCount, maxLoad);
      r := Ok(table);
    }

    method SetMaxLoadFactor(maxLoad: real)
      requires Masked() && buckets.Length <= maxBucketCount <= HALF_WORD
      modifies this`maxLoadFactor, this`loadThreshold
      ensures Sized() && IsClamped(maxLoadFactor, maxLoad)
    {
      var ml := if maxLoad < 0.95 then maxLoad else 0.95;
      maxLoadFactor := if 0.1 < ml then ml else 0.1;
      loadThreshold := Threshold(buckets.Length, maxLoadFactor);
    }

    // ---------- Bucket arithmetic ----------

    function BucketForHash(hash: nat): (i: nat)
      requires Masked()
      reads this
      ensures i <= mask
      ensures buckets.Length > 0 ==> i == Home(buckets.Length, hash)
    {
      assert buckets.Length > 0 ==> And(hash, mask) == Home(buckets.Length, hash) by {
        if buckets.Length > 0 {
          var k: nat :| buckets.Length == Pow2(k);
          MaskIsMod(hash, k);
        }
      }
      And(hash, mask)
    }

    lemma TruncatedHome(hash: nat)
      requires Masked() && buckets.Length > 0
      ensures Home(buckets.Length, hash % HALF_WORD) == Home(buckets.Length, hash)
    {
      var k: nat :| buckets.Length == Pow2(k);
      if k > 32 {
        Pow2Words();
        Pow2Increases(32, k);
        assert false;
      }
      TruncatedMask(hash, k);
      MaskIsMod(hash, k);
      MaskIsMod(hash % HALF_WORD, k);
    }

    function NextBucket(index: nat): (j: nat)
      requires index < buckets.Length
      reads this
      ensures j == Next(buckets.Length, index)
    {
      var i := index + 1;
      if i < buckets.Length then i else 0
    }

    function DistanceFromIdealBucket(ibucket: nat): (d: nat)
      requires Masked() && ibucket < buckets.Length
      reads this, buckets
      ensures d == Dist(buckets[..], ibucket)
    {
      var ideal := BucketForHash(buckets[ibucket].hash);
      if ibucket >= ideal then ibucket - ideal else (buckets.Length + ibucket) - ideal
    }

    /** *(m_first_or_empty_bucket + ibucket): the static empty bucket while there is no array. */
    function FirstOrEmpty(ibucket: nat): (b: Bucket)
      requires firstReadable && (buckets.Length == 0 || ibucket < buckets.Length)
      reads this, buckets
      ensures buckets.Length == 0 ==> b.Empty()
      ensures buckets.Length > 0 ==> b == buckets[..][ibucket]
    {
      if buckets.Length == 0 then EMPTY_BUCKET else buckets[ibucket]
    }

    // ---------- Rehashing ----------

    /** Moves every bucket entry, by displacement, into a new array of the rounded-up size. */
    method RehashImpl(bucketCount: nat) returns (ok: bool)
      requires Valid() && |values| <= bucketCount < WORD
      modifies this
      ensures ok <==> bucketCount == 0 || Allocatable(bucketCount)
      ensures !ok ==> unchanged(this)
      ensures values == old(values) && maxLoadFactor == old(maxLoadFactor) && Sized() && Indexed()
      ensures firstReadable == !(ok && bucketCount == 0 && old(buckets.Length) > 0)
      ensures ok ==> if bucketCount == 0 then buckets.Length == 0 else LeastPow2AtLeast(buckets.Length, bucketCount)
      ensures if buckets.Length == old(buckets.Length) then unchanged(this) else fresh(buckets) && !growOnNextInsert
    {
      if bucketCount > maxBucketCount {
        return false;
      }
      var count := bucketCount;
      if count > 0 {
        count := RoundUpToPowerOfTwo(count);
        RoundedFits(count, bucketCount, maxBucketCount);
      }
      if count == buckets.Length {
        return true;
      }
      if count > maxBucketCount {
        return false; // the new vector does not fit
      }
      Rebuild(count);
      ok := true;
    }

    method Rebuild(count: nat)
      requires Valid() && |values| <= count <= maxBucketCount
      requires count == 0 || IsPow2(count)
      modifies this
      ensures fresh(buckets) && buckets.Length == count && firstReadable == (count > 0) && !growOnNextInsert
      ensures values == old(values) && maxLoadFactor == old(maxLoadFactor)
      ensures Sized() && Indexed()
    {
      ghost var all := pos;
      var oldBuckets := buckets;
      buckets, pos := new Bucket[count](_ => EMPTY_BUCKET), map[];
      firstReadable, mask := count > 0, if count > 0 then count - 1 else 0;
      SetMaxLoadFactor(maxLoadFactor);
      growOnNextInsert := false;
      ReinsertAll(oldBuckets, all);
    }

    method ReinsertAll(oldBuckets: array<Bucket>, ghost all: map<nat, nat>)
      requires buckets != oldBuckets && Masked() && |values| <= buckets.Length && pos == map[]
      requires forall i | 0 <= i < buckets.Length :: buckets[i].Empty()
      requires Linked(oldBuckets[..], all, Hashes(values)) && Complete(all, |values|)
      modifies this`pos, buckets
      ensures Indexed()
    {
      ghost var hashes := Hashes(values);
      AllEmptyIsFine(buckets[..]);
      for k := 0 to oldBuckets.Length
        invariant oldBuckets[..] == old(oldBuckets[..])
        invariant Shape(buckets[..]) && Anchored(buckets[..]) && Linked(buckets[..], pos, hashes)
        invariant forall x :: x in pos <==> x in all && all[x] < k
      {
        if oldBuckets[k].Empty() {
          continue;
        }
        var entry := oldBuckets[k];
        ghost var b := buckets[..];
        ghost var home := Home(|b|, entry.hash);
        ghost var z := Vacancy(b, pos, all, hashes, entry.index);
        Reinsert(entry, z);
        PlaceKeepsShape(b, home, 0, entry, z);
        pos := PlaceLinks(b, home, 0, entry, z, pos, hashes);
      }
    }

    /** The exchange both displacement loops make at an occupied bucket, and the step past it. */
    method MeetBucket(ibucket: nat, dist: nat, entry: Bucket) returns (e: Bucket, d: nat)
      requires Masked() && ibucket < buckets.Length && !buckets[ibucket].Empty() && !entry.Empty()
      modifies buckets
      ensures Carried(buckets[..], d, e) == Meet(old(buckets[..]), ibucket, dist, entry)
    {
      e, d := entry, dist;
      var distance := DistanceFromIdealBucket(ibucket);
      if d > distance {
        e, buckets[ibucket] := buckets[ibucket], e;
        d := distance;
      }
      d := d + 1;
    }

    method Reinsert(entry: Bucket, ghost z: nat)
      requires Masked() && z < buckets.Length && buckets[z].Empty() && !entry.Empty()
      modifies buckets
      ensures buckets[..] == Place(old(buckets[..]), Home(buckets.Length, entry.hash), 0, entry, z).buckets
    {
      var e, ibucket: nat, dist: nat := entry, BucketForHash(entry.hash), 0;
      ghost var goal := Place(buckets[..], ibucket, dist, e, z).buckets;
      while true
        invariant ibucket < buckets.Length && buckets[..][z].Empty() && !e.Empty()
        invariant Place(buckets[..], ibucket, dist, e, z).buckets == goal
        decreases Steps(buckets.Length, ibucket, z)
      {
        if buckets[ibucket].Empty() {
          buckets[ibucket] := e;
          break;
        }
        e, dist := MeetBucket(ibucket, dist, e);
        ibucket := NextBucket(ibucket);
      }
    }

    /** The array has the size for this many buckets, and growth is no longer due if that is new. */
    ghost predicate Resized(before: nat, wasDue: bool, target: nat)
      reads this
    {
      && (if target == 0 then buckets.Length == 0 else LeastPow2AtLeast(buckets.Length, target))
      && growOnNextInsert == (wasDue && buckets.Length == before)
    }

    /** On an empty table a request for zero buckets leaves m_first_or_empty_bucket dangling. */
    method Rehash(count: nat) returns (ok: bool)
      requires Valid() && count < WORD
      modifies this
      ensures var target := old(Max(count, CeilDiv(|values|, maxLoadFactor)));
        ok <==> target == 0 || Allocatable(target)
      ensures !ok ==> unchanged(this)
      ensures ok ==> count <= buckets.Length
      ensures values == old(values) && maxLoadFactor == old(maxLoadFactor)
      ensures fresh(buckets) || unchanged(this)
      ensures ok ==> Resized(old(buckets.Length), old(growOnNextInsert),
                             old(Max(count, CeilDiv(|values|, maxLoadFactor))))
      ensures Valid() <==> !(ok && count == 0 && |values| == 0 && old(buckets.Length) > 0)
    {
      var atLeast := CeilDiv(|values|, maxLoadFactor);
      ok := RehashImpl(Max(count, atLeast));
    }

    /** After reserving for count values that many fit without a rehash. */
    method Reserve(count: nat) returns (ok: bool)
      requires Valid() && CeilDiv(count, maxLoadFactor) < WORD
      modifies this
      ensures var target := old(Max(CeilDiv(count, maxLoadFactor), CeilDiv(|values|, maxLoadFactor)));
        && (ok <==> target == 0 || Allocatable(target))
        && (ok ==> Resized(old(buckets.Length), old(growOnNextInsert), target))
      ensures !ok ==> unchanged(this)
      ensures values == old(values) && maxLoadFactor == old(maxLoadFactor)
      ensures ok ==> count <= loadThreshold
      ensures fresh(buckets) || unchanged(this)
      ensures Valid() <==> !(ok && count == 0 && |values| == 0 && old(buckets.Length) > 0)
    {
      ok := Rehash(CeilDiv(count, maxLoadFactor));
      if ok {
        ReservedFits(count, buckets.Length, maxLoadFactor);
      }
    }

    ghost predicate NeedsGrowth()
      reads this
    {
      growOnNextInsert || |values| >= loadThreshold
    }

    /** A new key is refused when the indexes run out or when the array is due to grow and cannot. */
    ghost predicate Refuses()
      reads this
    {
      |values| >= MAX_SIZE || (NeedsGrowth() && !Allocatable(Max(1, buckets.Length * 2)))
    }

    /** Grows a table that is due; either way, a table that is not refused has an empty bucket. */
    method GrowOnHighLoad() returns (r: Result<bool>)
      requires Valid()
      modifies this
      ensures Valid() && values == old(values) && maxLoadFactor == old(maxLoadFactor)
      ensures r.LengthError? <==> old(NeedsGrowth()) && !Allocatable(Max(1, old(buckets.Length) * 2))
      ensures r.Ok? ==> r.value == old(NeedsGrowth()) && |values| < buckets.Length && !growOnNextInsert
      ensures if r == Ok(true) then fresh(buckets) && buckets.Length == Max(1, old(buckets.Length) * 2)
              else unchanged(this)
    {
      if growOnNextInsert || |values| >= loadThreshold {
        GrownCount(buckets.Length);
        var ok := RehashImpl(Max(1, buckets.Length * 2));
        if !ok {
          return LengthError;
        }
        growOnNextInsert := false;
        return Ok(true);
      }
      return Ok(false);
    }

    // ---------- Lookup ----------

    /** The bucket holding the key, or bucket_count() (the end iterator) when it is not stored. */
    method FindKey(key: K, hash: nat) returns (bucket: nat)
      requires Valid() && hash == hashOf(key)
      ensures bucket <= buckets.Length
      ensures bucket < buckets.Length ==>
        !buckets[bucket].Empty() && buckets[bucket].index == IndexOf(keyOf, values, key) < |values|
      ensures bucket == buckets.Length ==> IndexOf(keyOf, values, key) == |values|
    {
      ghost var n, b, k := buckets.Length, buckets[..], IndexOf(keyOf, values, key);
      ghost var home := BucketForHash(hash);
      if n > 0 { TruncatedHome(hash); }
      var ibucket, dist := BucketForHash(hash), 0;
      while true
        invariant dist <= n && (if n == 0 then ibucket == 0 else ibucket == Forward(n, home, dist))
        invariant k < |values| ==> dist <= Dist(b, pos[k])
        decreases n + 1 - dist
      {
        if k < |values| { ProbeMeets(b, pos[k], ibucket, dist, hash); }
        if FirstOrEmpty(ibucket).Empty() {
          return buckets.Length;
        } else if FirstOrEmpty(ibucket).hash == hash % HALF_WORD && key == keyOf(values[FirstOrEmpty(ibucket).index]) {
          IndexOfStored(keyOf, values, b[ibucket].index);
          return ibucket;
        } else if dist > DistanceFromIdealBucket(ibucket) {
          return buckets.Length;
        }
        ibucket, dist := NextBucket(ibucket), dist + 1;
      }
    }

    method Find(key: K) returns (index: nat)
      requires Valid()
      ensures index == IndexOf(keyOf, values, key)
    {
      var bucket := FindKey(key, hashOf(key));
      index := if bucket != buckets.Length then buckets[bucket].index else |values|;
    }

    method Count(key: K) returns (count: nat)
      requires Valid()
      ensures count == if exists v :: v in values && keyOf(v) == key then 1 else 0
    {
      var index := Find(key);
      count := if index == |values| then 0 else 1;
    }

    // ---------- Insertion ----------

    method InsertIndex(start: nat, startDist: nat, index: nat, hash: nat, ghost z: nat)
      requires Masked() && start < buckets.Length && z < buckets.Length && buckets[z].Empty()
      requires index < EMPTY_MARKER_INDEX
      modifies buckets, this`growOnNextInsert
      ensures var placed := Place(old(buckets[..]), start, startDist, Bucket(index, hash), z);
        && buckets[..] == placed.buckets
        && growOnNextInsert == (old(growOnNextInsert) || (placed.longest > GROW_PROBES && HighLoad()))
    {
      var e, ibucket: nat, dist: nat := Bucket(index, hash), start, startDist;
      ghost var goal, longest: nat := Place(buckets[..], ibucket, dist, e, z), 0;
      while !buckets[ibucket].Empty()
        invariant ibucket < buckets.Length && buckets[..][z].Empty() && !e.Empty()
        invariant var rest := Place(buckets[..], ibucket, dist, e, z);
          rest.buckets == goal.buckets && Max(longest, rest.longest) == goal.longest
        invariant growOnNextInsert == (old(growOnNextInsert) || (longest > GROW_PROBES && HighLoad()))
        decreases Steps(buckets.Length, ibucket, z)
      {
        e, dist := MeetBucket(ibucket, dist, e);
        ibucket := NextBucket(ibucket);
        if dist > GROW_PROBES && !growOnNextInsert && HighLoad() {
          growOnNextInsert := true;
        }
        longest := Max(longest, dist);
      }
      buckets[ibucket] := e;
    }

    /** load_factor() >= REHASH_ON_HIGH_NB_PROBES__MIN_LOAD_FACTOR, with the division cleared. */
    predicate HighLoad()
      reads this
    {
      buckets.Length > 0 && 100 * |values| >= GROW_MIN_LOAD_PERCENT * buckets.Length
    }

    /** Inserts at the end unless the key is stored; answers the position and whether it inserted. */
    method Insert(value: V) returns (r: Result<(nat, bool)>)
      requires Valid()
      modifies this, buckets
      ensures Valid() && (fresh(buckets) || buckets == old(buckets))
      ensures maxLoadFactor == old(maxLoadFactor)
      ensures IndexOf(keyOf, old(values), keyOf(value)) < |old(values)| ==>
        r == Ok((IndexOf(keyOf, old(values), keyOf(value)), false)) && values == old(values)
      ensures IndexOf(keyOf, old(values), keyOf(value)) == |old(values)| ==>
        && (r.LengthError? <==> old(Refuses()))
        && (if r.LengthError? then values == old(values)
            else values == old(values) + [value] && r.value == (|old(values)|, true))
      ensures buckets.Length == if values != old(values) && old(NeedsGrowth()) then Max(1, old(buckets.Length) * 2)
                                else old(buckets.Length)
      ensures values == old(values) ==> growOnNextInsert == old(growOnNextInsert) && buckets[..] == old(buckets[..])
    {
      var key := keyOf(value);
      var ibucket, dist, found := ProbeForInsert(key, hashOf(key));
      if found {
        return Ok((FirstOrEmpty(ibucket).index, false));
      }
      r := InsertNew(value, ibucket, dist);
    }

    /** The rest of insert_impl, for a key that the probe has not found. */
    method InsertNew(value: V, start: nat, startDist: nat) returns (r: Result<(nat, bool)>)
      requires Valid() && IndexOf(keyOf, values, keyOf(value)) == |values|
      requires buckets.Length > 0 ==> MayStart(buckets[..], start, startDist, hashOf(keyOf(value)))
      modifies this, buckets
      ensures Valid() && (fresh(buckets) || buckets == old(buckets)) && maxLoadFactor == old(maxLoadFactor)
      ensures r.LengthError? <==> old(Refuses())
      ensures if r.LengthError? then values == old(values)
              else values == old(values) + [value] && r.value == (|old(values)|, true)
      ensures buckets.Length == if r.Ok? && old(NeedsGrowth()) then Max(1, old(buckets.Length) * 2)
                                else old(buckets.Length)
      ensures r.LengthError? ==> growOnNextInsert == old(growOnNextInsert) && buckets[..] == old(buckets[..])
    {
      if |values| >= MAX_SIZE {
        return LengthError;
      }
      var grown := GrowOnHighLoad();
      if grown.LengthError? {
        return LengthError;
      }
      var hash, ibucket, dist := hashOf(keyOf(value)), start, startDist;
      if grown.value {
        ibucket, dist := BucketForHash(hash), 0;
      }
      TruncatedHome(hash);
      Append(value, hash % HALF_WORD, ibucket, dist);
      r := Ok((|values| - 1, true));
    }

    /** emplace_back followed by insert_index. */
    method Append(value: V, hash: nat, ibucket: nat, dist: nat)
      requires Valid() && |values| < MAX_SIZE && |values| < buckets.Length
      requires IndexOf(keyOf, values, keyOf(value)) == |values|
      requires hash == hashOf(keyOf(value)) % HALF_WORD && MayStart(buckets[..], ibucket, dist, hash)
      modifies this`values, this`pos, this`growOnNextInsert, buckets
      ensures Valid() && values == old(values) + [value]
    {
      ghost var more := Hashes(values) + [hash];
      ghost var z, pos' := AppendPlaces(buckets[..], ibucket, dist, Bucket(|values|, hash), pos, Hashes(values), more);
      DistinctAppend(keyOf, values, value);
      InsertIndexOf(value, ibucket, dist, hash, z);
      assert Hashes(values) == more;
      pos := pos';
    }

    method InsertIndexOf(value: V, ibucket: nat, dist: nat, hash: nat, ghost z: nat)
      requires Masked() && ibucket < buckets.Length && z < buckets.Length && buckets[z].Empty()
      requires |values| < MAX_SIZE
      modifies this`values, this`growOnNextInsert, buckets
      ensures values == old(values) + [value]
      ensures buckets[..] == Place(old(buckets[..]), ibucket, dist, Bucket(|old(values)|, hash), z).buckets
    {
      values := values + [value];
      InsertIndex(ibucket, dist, |values| - 1, hash, z);
    }

    /** The search that opens insert_impl: it ends at the key's bucket or at the bucket where an
        entry for the key may start its displacement. */
    method ProbeForInsert(key: K, hash: nat) returns (ibucket: nat, dist: nat, found: bool)
      requires Valid() && hash == hashOf(key)
      ensures buckets.Length == 0 ==> ibucket == 0
      ensures buckets.Length > 0 ==> ibucket < buckets.Length
      ensures found == (IndexOf(keyOf, values, key) < |values|)
      ensures found ==> FirstOrEmpty(ibucket).index == IndexOf(keyOf, values, key)
      ensures !found && buckets.Length > 0 ==> MayStart(buckets[..], ibucket, dist, hash)
    {
      ghost var n, b, k := buckets.Length, buckets[..], IndexOf(keyOf, values, key);
      ghost var home := BucketForHash(hash);
      if n > 0 { TruncatedHome(hash); }
      ibucket, dist, found := BucketForHash(hash), 0, false;
      if k < |values| { ProbeMeets(b, pos[k], ibucket, dist, hash); }
      while !FirstOrEmpty(ibucket).Empty() && dist <= DistanceFromIdealBucket(ibucket)
        invariant dist <= n && (if n == 0 then ibucket == 0 else MayStart(b, ibucket, dist, hash))
        invariant k < |values| ==>
          && dist <= Dist(b, pos[k]) && !b[ibucket].Empty() && dist <= Dist(b, ibucket)
          && (dist == Dist(b, pos[k]) ==> ibucket == pos[k])
        decreases n + 1 - dist
      {
        if FirstOrEmpty(ibucket).hash == hash % HALF_WORD && key == keyOf(values[FirstOrEmpty(ibucket).index]) {
          IndexOfStored(keyOf, values, b[ibucket].index);
          found := true;
          return;
        }
        ProbeStep(b, ibucket, dist, hash);
        ibucket, dist := NextBucket(ibucket), dist + 1;
        if k < |values| { ProbeMeets(b, pos[k], ibucket, dist, hash); }
      }
    }

    // ---------- Erasure ----------

    method BackwardShiftBuckets(emptyBucket: nat)
      requires Masked() && emptyBucket < buckets.Length && buckets[emptyBucket].Empty()
      modifies buckets
      ensures buckets[..] == BackwardShift(old(buckets[..]), emptyBucket)
    {
      ghost var goal := BackwardShift(buckets[..], emptyBucket);
      var previous: nat := emptyBucket;
      var current: nat := NextBucket(previous);
      while !buckets[current].Empty() && DistanceFromIdealBucket(current) > 0
        invariant previous < buckets.Length && current == Next(buckets.Length, previous) && buckets[previous].Empty()
        invariant BackwardShift(buckets[..], previous) == goal
        decreases Displacement(buckets[..], buckets.Length)
      {
        ghost var b := buckets[..];
        MoveBackShrinks(b, previous);
        buckets[current], buckets[previous] := buckets[previous], buckets[current];
        assert buckets[..] == MoveBack(b, previous);
        previous, current := current, NextBucket(current);
      }
    }

    /** shift_indexes_in_buckets(from, -1): the values from position `from` on have just moved left
        by one; each one's bucket is searched under its old index, from its ideal bucket on. */
    method ShiftIndexesDown(from: nat, ghost hashes: seq<nat>)
      requires Masked() && from <= |values| < MAX_SIZE && Shape(buckets[..])
      requires Linked(buckets[..], pos, hashes) && Complete(pos, |hashes|)
      requires |hashes| == |values| + 1
      requires forall k | from <= k < |values| :: Hashes(values)[k] == hashes[k + 1]
      modifies buckets
      ensures buckets[..] == Renumber(old(buckets[..]), from, |values|)
    {
      ghost var b := buckets[..];
      assert b == Renumber(b, from, from);
      for ivalue := from to |values|
        invariant buckets[..] == Renumber(b, from, ivalue)
      {
        RenumberStep(b, pos, hashes, from, ivalue);
        OutlineKeepsShape(b, Renumber(b, from, ivalue));
        assert b[pos[ivalue + 1]].hash == Hashes(values)[ivalue];
        var ibucket := LocateIndex(ivalue + 1, hashOf(keyOf(values[ivalue])), pos[ivalue + 1]);
        buckets[ibucket] := buckets[ibucket].(index := ivalue);
      }
    }

    /** The search asks every bucket on its way for its index, so they have to be occupied. */
    method LocateIndex(index: nat, hash: nat, ghost p: nat) returns (ibucket: nat)
      requires Masked() && p < buckets.Length && buckets[p].hash == hash % HALF_WORD
      requires Shape(buckets[..]) && !buckets[p].Empty()
      requires forall i | 0 <= i < buckets.Length :: buckets[i].index == index <==> i == p
      ensures ibucket == p
      ensures forall d: nat | d <= Dist(buckets[..], p) ::
        !buckets[Forward(buckets.Length, Home(buckets.Length, hash), d)].Empty()
    {
      TruncatedHome(hash);
      ibucket := BucketForHash(hash);
      ghost var dist: nat := 0;
      PathOccupied(buckets[..], p, 0);
      while buckets[ibucket].index != index
        invariant dist <= Dist(buckets[..], p)
        invariant ibucket == Forward(buckets.Length, Home(buckets.Length, hash), dist)
        invariant forall d: nat | d <= dist :: !buckets[Forward(buckets.Length, Home(buckets.Length, hash), d)].Empty()
        decreases Dist(buckets[..], p) - dist
      {
        ibucket, dist := NextBucket(ibucket), dist + 1;
        PathOccupied(buckets[..], p, dist);
      }
    }

    method EraseValueFromBucket(ibucket: nat)
      requires Valid() && ibucket < buckets.Length && !buckets[ibucket].Empty()
      modifies this`values, this`pos, buckets
      ensures Valid() && values == Without(old(values), old(buckets[ibucket].index))
    {
      ghost var b, hashes := buckets[..], Hashes(values);
      var index := buckets[ibucket].index;
      DistinctWithout(keyOf, values, index);
      values := Without(values, index);
      assert Hashes(values) == Without(hashes, index);
      EraseBucket(ibucket, hashes);
      pos := ErasedKeepsIndex(b, pos, hashes, ibucket);
    }

    /** What erase_value_from_bucket does to the buckets once the value is gone. */
    method EraseBucket(ibucket: nat, ghost hashes: seq<nat>)
      requires Masked() && ibucket < buckets.Length && !buckets[ibucket].Empty() && |values| < MAX_SIZE
      requires Shape(buckets[..])
      requires Linked(buckets[..], pos, hashes) && Complete(pos, |hashes|)
      requires |hashes| == |values| + 1 && Hashes(values) == Without(hashes, buckets[ibucket].index)
      modifies buckets
      ensures buckets[..] == Erased(old(buckets[..]), ibucket, |values|)
    {
      ghost var b := buckets[..];
      var index := buckets[ibucket].index;
      if index != |values| {
        ShiftIndexesDown(index, hashes);
      }
      assert buckets[..] == Renumber(b, index, |values|);
      buckets[ibucket] := buckets[ibucket].Clear();
      BackwardShiftBuckets(ibucket);
    }

    method Erase(key: K) returns (count: nat)
      requires Valid()
      modifies this`values, this`pos, buckets
      ensures Valid()
      ensures var k := IndexOf(keyOf, old(values), key);
        if k == |old(values)| then count == 0 && values == old(values) && buckets[..] == old(buckets[..])
        else count == 1 && values == Without(old(values), k)
    {
      var bucket := FindKey(key, hashOf(key));
      if bucket == buckets.Length {
        return 0;
      }
      EraseValueFromBucket(bucket);
      return 1;
    }

    /** Erasing at an iterator; the answer is the position of the value that followed. */
    method EraseAt(index: nat) returns (next: nat)
      requires Valid() && index < |values|
      modifies this`values, this`pos, buckets
      ensures Valid() && values == Without(old(values), index) && next == index
    {
      var bucket := FindKey(keyOf(values[index]), hashOf(keyOf(values[index])));
      IndexOfStored(keyOf, values, index);
      EraseValueFromBucket(bucket);
      next := index;
    }

    /** Erasing in constant time: the last value takes the place of the erased one. */
    method UnorderedErase(key: K) returns (count: nat)
      requires Valid()
      modifies this`values, this`pos, buckets
      ensures Valid()
      ensures var k := IndexOf(keyOf, old(values), key);
        if k == |old(values)| then count == 0 && values == old(values) && buckets[..] == old(buckets[..])
        else count == 1 && values == FillHole(old(values), k)
    {
      var bucket := FindKey(key, hashOf(key));
      if bucket == buckets.Length {
        return 0;
      }
      var last := |values| - 1;
      IndexOfStored(keyOf, values, last);
      if key != keyOf(values[last]) {
        var bucketLast := FindKey(keyOf(values[last]), hashOf(keyOf(values[last])));
        SwapWithLast(bucket, bucketLast);
      }
      SwapThenDrop(old(values), IndexOf(keyOf, old(values), key));
      EraseValueFromBucket(bucket);
      return 1;
    }

    method SwapWithLast(bucket: nat, bucketLast: nat)
      requires Valid() && bucket < buckets.Length && bucketLast < buckets.Length && bucket != bucketLast
      requires !buckets[bucket].Empty() && !buckets[bucketLast].Empty()
      modifies this`values, this`pos, buckets
      ensures Valid()
      ensures var i, j := old(buckets[bucket].index), old(buckets[bucketLast].index);
        i < |old(values)| && j < |old(values)| && values == Swapped(old(values), i, j)
      ensures !buckets[bucket].Empty() && buckets[bucket].index == old(buckets[bucketLast].index)
    {
      ghost var b, hashes := buckets[..], Hashes(values);
      var i, j := buckets[bucket].index, buckets[bucketLast].index;
      DistinctSwapped(keyOf, values, i, j);
      values := Swapped(values, i, j);
      buckets[bucket], buckets[bucketLast] := buckets[bucket].(index := j), buckets[bucketLast].(index := i);
      assert buckets[..] == SwapIndexes(b, bucket, bucketLast);
      assert Hashes(values) == Swapped(hashes, i, j);
      pos := SwapLinks(b, bucket, bucketLast, pos, hashes);
    }

    method Clear()
      requires Valid()
      modifies this`values, this`pos, this`growOnNextInsert, buckets
      ensures Valid() && values == [] && !growOnNextInsert
    {
      for i := 0 to buckets.Length
        invariant forall j | 0 <= j < i :: buckets[j].Empty()
      {
        buckets[i] := buckets[i].Clear();
      }
      AllEmptyIsFine(buckets[..]);
      values, growOnNextInsert, pos := [], false, map[];
    }

    /** Erases the values in [first, last). The values are always right. The buckets are right if and
        only if the homes and indexes before the call spare the later values; so whenever the entries
        displaced across the end of the array belong to values before the end of the range, as they do
        when the range reaches the last value or bucket 0 is empty or holds an entry at home. */
    method EraseRange(first: nat, last: nat)
      requires Valid() && first <= last <= |values|
      modifies this`values, this`pos, buckets
      ensures values == WithoutRange(old(values), first, last)
      ensures buckets[..] == if first < last then Sweep(old(buckets[..]), 0, first, last) else old(buckets[..])
      ensures Valid() <==> (first < last ==> Spares(old(buckets[..]), first, last))
      ensures WrappedAreEarly(old(buckets[..]), 0, first, last) ==> Valid()
      ensures last == |old(values)| || (buckets.Length > 0 && old(!Displaced(buckets[..], 0))) ==> Valid()
    {
      if first < last {
        EarlyIsSpared(buckets[..], first, last, pos, Hashes(values));
        EraseSlice(first, last);
      } else {
        assert WithoutRange(values, first, last) == values;
      }
    }

    method EraseSlice(first: nat, last: nat)
      requires Valid() && first < last <= |values|
      modifies this`values, this`pos, buckets
      ensures values == WithoutRange(old(values), first, last)
      ensures buckets[..] == Sweep(old(buckets[..]), 0, first, last)
      ensures Valid() <==> Spares(old(buckets[..]), first, last)
    {
      ghost var b, hashes := buckets[..], Hashes(values);
      DistinctWithoutRange(keyOf, values, first, last);
      values := WithoutRange(values, first, last);
      WalkBuckets(first, last);
      assert Hashes(values) == WithoutRange(hashes, first, last);
      pos := SweepOutcome(b, first, last, pos, hashes);
    }

    method WalkBuckets(first: nat, last: nat)
      requires Masked() && first <= last
      modifies buckets
      ensures buckets[..] == Sweep(old(buckets[..]), 0, first, last)
    {
      var ibucket: nat := 0;
      while ibucket < buckets.Length
        invariant ibucket <= buckets.Length
        invariant Sweep(buckets[..], ibucket, first, last) == Sweep(old(buckets[..]), 0, first, last)
        decreases Occupied(buckets[..], buckets.Length), buckets.Length - ibucket
      {
        ghost var b := buckets[..];
        if buckets[ibucket].Empty() {
          assert b[ibucket := b[ibucket]] == b;
          ibucket := ibucket + 1;
        } else if first <= buckets[ibucket].index < last {
          CutShrinks(b, ibucket);
          buckets[ibucket] := buckets[ibucket].Clear();
          BackwardShiftBuckets(ibucket);
        } else if buckets[ibucket].index >= last {
          LoweredShrinks(b, ibucket, first, last);
          buckets[ibucket] := buckets[ibucket].(index := buckets[ibucket].index - (last - first));
          ibucket := ibucket + 1;
        } else {
          assert b[ibucket := b[ibucket]] == b;
          ibucket := ibucket + 1;
        }
      }
    }
  }
}
