/** Size-bucketed pools of free registers and stack slots (Analyzers/regAlloc.cpp:28-145). */
module Pools {
  import opened Util

  /** A register or a stack slot; places are told apart by their kind and id. */
  datatype Place = Place(isReg: bool, isFp: bool, size: nat, id: nat)

  type Bucket = (nat, seq<Place>)
  type Pool = seq<Bucket>

  ghost predicate BucketOk(b: Bucket) {
    Distinct(b.1) && forall pl :: pl in b.1 ==> pl.size == b.0
  }

  /** Buckets of different sizes, each holding distinct places of its own size. */
  ghost predicate PoolOk(pool: Pool) {
    && (forall b :: b in pool ==> BucketOk(b))
    && (forall i, j :: 0 <= i < j < |pool| ==> pool[i].0 != pool[j].0)
  }

  ghost function FreeIn(pool: Pool): set<Place> {
    set b, pl | b in pool && pl in b.1 :: pl
  }

  ghost predicate HasBucket(pool: Pool, size: nat) {
    exists b :: b in pool && b.0 == size
  }

  ghost predicate SortedPool(pool: Pool) {
    forall i, j :: 0 <= i < j < |pool| ==> pool[i].0 < pool[j].0
  }

  /** The sizes of the buckets do not change. */
  ghost predicate SameSizes(pool: Pool, pool': Pool) {
    |pool| == |pool'| && forall i :: 0 <= i < |pool| ==> pool'[i].0 == pool[i].0
  }

  lemma FreeUpdate(pool: Pool, i: nat, b: Bucket)
    requires PoolOk(pool) && i < |pool| && b.0 == pool[i].0 && BucketOk(b)
    ensures PoolOk(pool[i := b]) && SameSizes(pool, pool[i := b])
    ensures FreeIn(pool[i := b]) == FreeIn(pool) - Elems(pool[i].1) + Elems(b.1)
  {
    var pool' := pool[i := b];
    forall x | x in pool' ensures BucketOk(x) {
      assert x == b || x in pool;
    }
    forall pl ensures pl in FreeIn(pool') <==> pl in FreeIn(pool) - Elems(pool[i].1) + Elems(b.1) {
      if pl in FreeIn(pool') {
        var x :| x in pool' && pl in x.1;
        var k := FirstIndex(pool', x);
        if k != i {
          assert x == pool[k] && pool[i] in pool;
          assert pl !in pool[i].1;
        }
      }
      if pl in FreeIn(pool) && pl !in pool[i].1 {
        var x :| x in pool && pl in x.1;
        var k := FirstIndex(pool, x);
        assert pool'[k] == x;
      }
      if pl in b.1 {
        assert pool'[i] == b;
      }
    }
  }

  /** Takes a place from the first bucket that is wide enough and not empty. */
  method TryGetMemPlace(pool: Pool, size: nat) returns (found: Option<Place>, rest: Pool)
    requires PoolOk(pool)
    ensures PoolOk(rest) && SameSizes(pool, rest)
    ensures found.None? ==> rest == pool && forall pl :: pl in FreeIn(pool) ==> pl.size < size
    ensures found.Some? ==> found.value in FreeIn(pool) && found.value.size >= size
    ensures found.Some? ==> FreeIn(rest) == FreeIn(pool) - {found.value}
    ensures found.Some? && SortedPool(pool) ==>
              forall pl :: pl in FreeIn(pool) && pl.size >= size ==> found.value.size <= pl.size
  {
    for i := 0 to |pool|
      invariant forall j :: 0 <= j < i ==> pool[j].0 < size || pool[j].1 == []
    {
      var (poolSize, sizedPool) := pool[i];
      assert pool[i] in pool && BucketOk(pool[i]);
      if poolSize >= size && sizedPool != [] {
        var n := |sizedPool| - 1;
        found := Some(sizedPool[n]);
        rest := pool[i := (poolSize, sizedPool[..n])];
        TakeLast(pool, i);
        FirstFitIsBest(pool, size, i);
        return;
      }
    }
    forall pl | pl in FreeIn(pool) ensures pl.size < size {
      var b :| b in pool && pl in b.1;
      var k := FirstIndex(pool, b);
      assert BucketOk(b);
    }
    found, rest := None, pool;
  }

  lemma TakeLast(pool: Pool, i: nat)
    requires PoolOk(pool) && i < |pool| && pool[i].1 != []
    ensures var n := |pool[i].1| - 1;
            var rest := pool[i := (pool[i].0, pool[i].1[..n])];
            && PoolOk(rest) && SameSizes(pool, rest)
            && pool[i].1[n] in FreeIn(pool) && pool[i].1[n].size == pool[i].0
            && FreeIn(rest) == FreeIn(pool) - {pool[i].1[n]}
  {
    var s := pool[i].1;
    var n := |s| - 1;
    assert pool[i] in pool && BucketOk(pool[i]);
    assert s == s[..n] + [s[n]];
    assert Elems(s) == Elems(s[..n]) + {s[n]};
    forall pl | pl in s[..n] ensures pl in s {
    }
    FreeUpdate(pool, i, (pool[i].0, s[..n]));
    forall pl | pl in Elems(s) ensures pl in FreeIn(pool) {
    }
  }

  lemma FirstFitIsBest(pool: Pool, size: nat, i: nat)
    requires PoolOk(pool) && i < |pool|
    requires forall j :: 0 <= j < i ==> pool[j].0 < size || pool[j].1 == []
    ensures SortedPool(pool) ==> forall pl :: pl in FreeIn(pool) && pl.size >= size ==> pool[i].0 <= pl.size
  {
    forall pl | SortedPool(pool) && pl in FreeIn(pool) && pl.size >= size ensures pool[i].0 <= pl.size {
      var b :| b in pool && pl in b.1;
      var k := FirstIndex(pool, b);
      assert BucketOk(b);
    }
  }

  /** Puts a place back into the bucket of its size, which exists. */
  method ReturnMemPlace(pool: Pool, place: Place) returns (more: Pool)
    requires PoolOk(pool) && HasBucket(pool, place.size) && place !in FreeIn(pool)
    ensures PoolOk(more) && SameSizes(pool, more)
    ensures FreeIn(more) == FreeIn(pool) + {place}
  {
    var i := FindBucket(pool, place.size);
    PutLast(pool, i, place);
    more := pool[i := (pool[i].0, pool[i].1 + [place])];
  }

  lemma PutLast(pool: Pool, i: nat, place: Place)
    requires PoolOk(pool) && i < |pool| && pool[i].0 == place.size && place !in FreeIn(pool)
    ensures var more := pool[i := (pool[i].0, pool[i].1 + [place])];
            PoolOk(more) && SameSizes(pool, more) && FreeIn(more) == FreeIn(pool) + {place}
  {
    var s := pool[i].1;
    assert pool[i] in pool && BucketOk(pool[i]);
    assert place !in s;
    assert Elems(s + [place]) == Elems(s) + {place};
    FreeUpdate(pool, i, (pool[i].0, s + [place]));
    forall pl | pl in Elems(s) ensures pl in FreeIn(pool) {
    }
  }

  /** std::find_if for the bucket of a size. */
  method FindBucket(pool: Pool, size: nat) returns (i: nat)
    ensures i <= |pool| && (i < |pool| <==> HasBucket(pool, size))
    ensures i < |pool| ==> pool[i].0 == size
  {
    i := 0;
    while i < |pool| && pool[i].0 != size
      invariant i <= |pool| && forall j :: 0 <= j < i ==> pool[j].0 != size
    {
      i := i + 1;
    }
    if i < |pool| {
      assert pool[i] in pool;
    }
  }

  lemma SameSizesBuckets(pool: Pool, pool': Pool)
    requires SameSizes(pool, pool')
    ensures forall size :: HasBucket(pool, size) <==> HasBucket(pool', size)
    ensures SortedPool(pool) ==> SortedPool(pool')
  {
    forall size ensures HasBucket(pool, size) <==> HasBucket(pool', size) {
      if b :| b in pool && b.0 == size {
        assert pool'[FirstIndex(pool, b)] in pool';
      }
      if b :| b in pool' && b.0 == size {
        assert pool[FirstIndex(pool', b)] in pool;
      }
    }
  }

  /** How many buckets at the front are smaller. */
  function SmallerAhead(pool: Pool, size: nat): (n: nat)
    ensures n <= |pool| && (forall i :: 0 <= i < n ==> pool[i].0 < size) && (n < |pool| ==> pool[n].0 >= size)
  {
    if pool == [] || pool[0].0 >= size then 0 else 1 + SmallerAhead(pool[1..], size)
  }

  /** Where a new bucket goes: before the last of the smaller ones at the front, or to the very front. */
  function BucketSlot(pool: Pool, size: nat): (i: nat)
    ensures i <= |pool|
  {
    var n := SmallerAhead(pool, size);
    if n == 0 then 0 else n - 1
  }

  function WithBucket(pool: Pool, size: nat): Pool {
    pool[..BucketSlot(pool, size)] + [(size, [])] + pool[BucketSlot(pool, size)..]
  }

  /** Makes sure there is a bucket of the given size. */
  method EnsureBucket(pool: Pool, size: nat) returns (more: Pool)
    requires PoolOk(pool)
    ensures PoolOk(more) && FreeIn(more) == FreeIn(pool)
    ensures forall n :: HasBucket(more, n) <==> HasBucket(pool, n) || n == size
    ensures more == if HasBucket(pool, size) then pool else WithBucket(pool, size)
  {
    var k := FindBucket(pool, size);
    if k < |pool| {
      return pool;
    }
    InsertBucket(pool, BucketSlot(pool, size), size);
    hide *;
    if pool == [] {
      more := [(size, [])];
      InsertedAfter(pool, size, 0);
      return;
    }
    var i: nat := 0;
    var prev: nat := 0;
    while i < |pool| && pool[i].0 < size
      invariant i <= |pool| && prev <= i && (i > 0 ==> prev == i - 1)
      invariant forall j :: 0 <= j < i ==> pool[j].0 < size
    {
      prev := i;
      i := i + 1;
    }
    InsertedAfter(pool, size, i);
    if i == prev {
      more := [(size, [])] + pool;
    } else {
      more := pool[..prev] + [(size, [])] + pool[prev..];
    }
  }

  /** Where the walk over the smaller buckets ends decides where the new one goes. */
  lemma InsertedAfter(pool: Pool, size: nat, i: nat)
    requires i <= |pool| && forall j :: 0 <= j < i ==> pool[j].0 < size
    requires i < |pool| ==> pool[i].0 >= size
    ensures pool == [] ==> WithBucket(pool, size) == [(size, [])]
    ensures i == 0 ==> WithBucket(pool, size) == [(size, [])] + pool
    ensures i > 0 ==> WithBucket(pool, size) == pool[..i - 1] + [(size, [])] + pool[i - 1..]
    ensures WithBucket(pool, size) == pool[..BucketSlot(pool, size)] + [(size, [])] + pool[BucketSlot(pool, size)..]
  {
    var n := SmallerAhead(pool, size);
    assert n == i;
    assert pool[..0] == [] && pool[0..] == pool;
  }

  /** A sorted pool stays sorted exactly when no bucket is smaller than the new one. */
  lemma SortedExactly(pool: Pool, size: nat)
    requires SortedPool(pool) && !HasBucket(pool, size)
    ensures SortedPool(WithBucket(pool, size)) <==> forall b :: b in pool ==> b.0 > size
  {
    var n := SmallerAhead(pool, size);
    var more := WithBucket(pool, size);
    if n == 0 {
      assert more == [(size, [])] + pool;
      forall b | b in pool ensures b.0 > size {
        var i := FirstIndex(pool, b);
        assert pool[0] in pool && pool[i] in pool;
      }
    } else {
      assert pool[n - 1] in pool;
      assert more[n - 1].0 == size && more[n] == pool[n - 1];
    }
  }

  /** The first slot is one of 8 bits, the second one of 32: the pool is no longer sorted. */
  method UnsortedPool() returns (pool: Pool)
    ensures pool == [(32, []), (8, [])] && !SortedPool(pool)
  {
    EightThenMore();
    hide *;
    pool := EnsureBucket([], 8);
    pool := EnsureBucket(pool, 32);
  }

  lemma EightThenMore()
    ensures PoolOk([]) && !HasBucket([], 8) && WithBucket([], 8) == [(8, [])]
    ensures !HasBucket([(8, [])], 32) && WithBucket([(8, [])], 32) == [(32, []), (8, [])]
    ensures !SortedPool([(32, []), (8, [])])
  {
    var pool: Pool := [(8, [])];
    assert pool[1..] == [] && SmallerAhead(pool, 32) == 1;
    var more: Pool := [(32, []), (8, [])];
    assert more[0].0 == 32 && more[1].0 == 8;
  }

  lemma InsertBucket(pool: Pool, i: nat, size: nat)
    requires PoolOk(pool) && i <= |pool| && !HasBucket(pool, size)
    ensures var more := pool[..i] + [(size, [])] + pool[i..];
            && PoolOk(more) && FreeIn(more) == FreeIn(pool)
            && forall n :: HasBucket(more, n) <==> HasBucket(pool, n) || n == size
  {
    var added: Bucket := (size, []);
    var more := pool[..i] + [added] + pool[i..];
    InsertMembers(pool, i, added);
    forall j, k | 0 <= j < k < |more| ensures more[j].0 != more[k].0 {
      InsertDistinct(pool, i, added, j, k);
    }
    hide *;
    InsertFree(pool, more, added);
  }

  lemma InsertMembers(pool: Pool, i: nat, added: Bucket)
    requires i <= |pool|
    ensures forall b :: b in pool[..i] + [added] + pool[i..] <==> b in pool || b == added
  {
    assert pool == pool[..i] + pool[i..];
  }

  lemma InsertDistinct(pool: Pool, i: nat, added: Bucket, j: nat, k: nat)
    requires PoolOk(pool) && i <= |pool| && !HasBucket(pool, added.0) && j < k < |pool| + 1
    ensures var more := pool[..i] + [added] + pool[i..]; more[j].0 != more[k].0
  {
    var more := pool[..i] + [added] + pool[i..];
    assert forall x :: 0 <= x < i ==> more[x] == pool[x] && pool[x] in pool;
    assert forall x :: i < x < |more| ==> more[x] == pool[x - 1] && pool[x - 1] in pool;
  }

  lemma InsertFree(pool: Pool, more: Pool, added: Bucket)
    requires PoolOk(pool) && added.1 == [] && forall b :: b in more <==> b in pool || b == added
    requires forall j, k :: 0 <= j < k < |more| ==> more[j].0 != more[k].0
    ensures PoolOk(more) && FreeIn(more) == FreeIn(pool)
    ensures forall n :: HasBucket(more, n) <==> HasBucket(pool, n) || n == added.0
  {
  }
}
