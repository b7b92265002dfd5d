/** Resolution buckets and the readings they keep, from app/api/presenter.py.
    Instants are microseconds; buckets and cursors are whole seconds. */
module TimelineBuckets {
  import opened Basics

  const SECOND := 1_000_000

  datatype Reading<+V> = Reading(observedAt: int, value: V)

  /** Python's `int`, which drops the fraction towards zero. */
  function Truncate(t: int): int {
    if t >= 0 then t / SECOND else -((-t) / SECOND)
  }

  function Bucket(t: int, resolution: int): int
    requires resolution > 0
  {
    Truncate(t) - Truncate(t) % resolution
  }

  predicate OnGrid(c: int, resolution: int)
    requires resolution > 0
  {
    c % resolution == 0
  }

  // ------------------------------------------------------------------
  // Buckets
  // ------------------------------------------------------------------

  lemma GridStep(c: int, resolution: int)
    requires resolution > 0
    ensures (c + resolution) % resolution == c % resolution
    ensures (c - resolution) % resolution == c % resolution
  {
    var q := c / resolution;
    assert c == q * resolution + c % resolution;
    Remainder(c + resolution, q + 1, c % resolution, resolution);
    Remainder(c - resolution, q - 1, c % resolution, resolution);
  }

  lemma Remainder(x: int, q: int, r: int, resolution: int)
    requires resolution > 0 && 0 <= r < resolution && x == q * resolution + r
    ensures x % resolution == r
  {
    var k, m := x / resolution, x % resolution;
    assert x == k * resolution + m;
    assert (k - q) * resolution == r - m;
    Between(k - q, resolution, r - m);
  }

  lemma AtLeast(n: int, resolution: int)
    requires n >= 1 && resolution > 0
    ensures n * resolution >= resolution
  {}

  lemma Between(n: int, resolution: int, difference: int)
    requires resolution > 0 && n * resolution == difference && -resolution < difference < resolution
    ensures n == 0
  {
    if n != 0 {
      AtLeast(if n > 0 then n else -n, resolution);
    }
  }

  /** Grid points less than a step apart are the same. */
  lemma GridApart(a: int, b: int, resolution: int)
    requires resolution > 0 && OnGrid(a, resolution) && OnGrid(b, resolution) && -resolution < a - b < resolution
    ensures a == b
  {
    var m, n := a / resolution, b / resolution;
    assert a == m * resolution && b == n * resolution;
    assert (m - n) * resolution == a - b;
    Between(m - n, resolution, a - b);
  }

  lemma BucketOnGrid(t: int, resolution: int)
    requires resolution > 0
    ensures OnGrid(Bucket(t, resolution), resolution)
    ensures Bucket(t, resolution) <= Truncate(t) < Bucket(t, resolution) + resolution
  {
    var q := Truncate(t) / resolution;
    assert Truncate(t) == q * resolution + Truncate(t) % resolution;
    Remainder(Bucket(t, resolution), q, 0, resolution);
  }

  lemma BucketMonotone(s: int, t: int, resolution: int)
    requires resolution > 0 && s <= t
    ensures Bucket(s, resolution) <= Bucket(t, resolution)
  {
    BucketOnGrid(s, resolution);
    BucketOnGrid(t, resolution);
    var a, b := Bucket(s, resolution), Bucket(t, resolution);
    assert Truncate(s) <= Truncate(t);
    if a > b {
      assert a - b < resolution;
      GridApart(a, b, resolution);
    }
  }

  /** Truncation does not carry the instant up to the start of its bucket; it can only in the second before one
      that starts at or before 1970. */
  predicate Inside(t: int, resolution: int)
    requires resolution > 0
  {
    t >= 0 || t % SECOND == 0 || !OnGrid(Truncate(t), resolution)
  }

  /** An instant lies before the end of its bucket, and not before its start exactly when it is not carried there. */
  lemma BucketHoldsInstant(t: int, resolution: int)
    requires resolution > 0
    ensures t < (Bucket(t, resolution) + resolution) * SECOND
    ensures Bucket(t, resolution) * SECOND <= t <==> Inside(t, resolution)
  {
    BucketOnGrid(t, resolution);
    if t < 0 {
      assert Truncate(t) * SECOND <= t + (-t) % SECOND;
      if OnGrid(Truncate(t), resolution) {
        assert Bucket(t, resolution) == Truncate(t);
      } else {
        assert Bucket(t, resolution) <= Truncate(t) - 1;
      }
    }
  }

  /** The last microsecond before 1970 is put in the five minutes from 1970 on. */
  lemma LastOf1969()
    ensures Bucket(-1, 300) == 0 && !Inside(-1, 300)
  {}

  /** The instants carried out of their bucket: those of the second before a bucket at or before 1970 starts. */
  lemma Outside(t: int, b: int, resolution: int)
    requires resolution > 0
    ensures !Inside(t, resolution) && b == Truncate(t) ==>
      OnGrid(b, resolution) && b <= 0 && Bucket(t, resolution) == b && (b - 1) * SECOND < t < b * SECOND
    ensures OnGrid(b, resolution) && b <= 0 && (b - 1) * SECOND < t < b * SECOND ==> !Inside(t, resolution)
  {
    if OnGrid(b, resolution) && b <= 0 && (b - 1) * SECOND < t < b * SECOND {
      assert Truncate(t) == b;
    }
  }

  // ------------------------------------------------------------------
  // Newest reading of a range of buckets
  // ------------------------------------------------------------------

  /** The bucket of each instant. The laws below need of it only that it is monotone and lands on a grid. */
  type Bucketing = int -> int

  function At(resolution: int): Bucketing
    requires resolution > 0
  {
    (t: int) => Bucket(t, resolution)
  }

  ghost predicate Monotone(bucket: Bucketing) {
    forall s, t :: s <= t ==> bucket(s) <= bucket(t)
  }

  /** No bucket starts strictly between two steps of a cursor. */
  ghost predicate StepsAt(bucket: Bucketing, resolution: int, c: int) {
    forall t :: bucket(t) <= c - resolution || c <= bucket(t)
  }

  lemma AtLands(resolution: int)
    requires resolution > 0
    ensures Monotone(At(resolution))
    ensures forall c :: OnGrid(c, resolution) ==> StepsAt(At(resolution), resolution, c)
  {
    forall s, t | s <= t ensures At(resolution)(s) <= At(resolution)(t) {
      BucketMonotone(s, t, resolution);
    }
    forall c, t | OnGrid(c, resolution) ensures At(resolution)(t) <= c - resolution || c <= At(resolution)(t) {
      BucketOnGrid(t, resolution);
      if c - resolution < Bucket(t, resolution) < c {
        GridApart(Bucket(t, resolution), c, resolution);
      }
    }
  }

  predicate InRange<V>(r: Reading<V>, bucket: Bucketing, lo: int, hi: int) {
    lo <= bucket(r.observedAt) <= hi
  }

  /** The newest reading whose bucket is in [lo, hi], the first of them in a tie. */
  function Last<V>(rs: seq<Reading<V>>, bucket: Bucketing, lo: int, hi: int): Option<Reading<V>> {
    if rs == [] then None else
      var init, r := Last(rs[..|rs| - 1], bucket, lo, hi), rs[|rs| - 1];
      if InRange(r, bucket, lo, hi) && (init.None? || init.value.observedAt < r.observedAt) then Some(r) else init
  }

  /** Nothing of the range is newer. */
  ghost predicate Newest<V>(rs: seq<Reading<V>>, bucket: Bucketing, lo: int, hi: int, x: Reading<V>) {
    && x in rs && InRange(x, bucket, lo, hi)
    && forall r :: r in rs && InRange(r, bucket, lo, hi) ==> r.observedAt <= x.observedAt
  }

  lemma {:induction false} LastIsNewest<V>(rs: seq<Reading<V>>, bucket: Bucketing, lo: int, hi: int)
    ensures Last(rs, bucket, lo, hi).None? <==> forall r :: r in rs ==> !InRange(r, bucket, lo, hi)
    ensures Last(rs, bucket, lo, hi).Some? ==> Newest(rs, bucket, lo, hi, Last(rs, bucket, lo, hi).value)
  {
    if rs != [] {
      LastIsNewest(rs[..|rs| - 1], bucket, lo, hi);
      assert rs == rs[..|rs| - 1] + [rs[|rs| - 1]];
    }
  }

  /** At index `i`, and everything of the range before it is older. */
  ghost predicate FirstAt<V>(rs: seq<Reading<V>>, bucket: Bucketing, lo: int, hi: int, i: int, x: Reading<V>) {
    && 0 <= i < |rs| && rs[i] == x
    && forall r :: r in rs[..i] && InRange(r, bucket, lo, hi) ==> r.observedAt < x.observedAt
  }

  /** In a tie the reading listed first is kept. */
  lemma {:induction false} LastIsFirst<V>(rs: seq<Reading<V>>, bucket: Bucketing, lo: int, hi: int)
    ensures Last(rs, bucket, lo, hi).Some? ==>
      exists i :: FirstAt(rs, bucket, lo, hi, i, Last(rs, bucket, lo, hi).value)
  {
    if rs != [] {
      var init, r := rs[..|rs| - 1], rs[|rs| - 1];
      LastIsFirst(init, bucket, lo, hi);
      LastIsNewest(init, bucket, lo, hi);
      var before := Last(init, bucket, lo, hi);
      if InRange(r, bucket, lo, hi) && (before.None? || before.value.observedAt < r.observedAt) {
        assert FirstAt(rs, bucket, lo, hi, |init|, r);
      } else if before.Some? {
        var i :| FirstAt(init, bucket, lo, hi, i, before.value);
        assert init[..i] == rs[..i];
        assert FirstAt(rs, bucket, lo, hi, i, before.value);
      }
    }
  }

  /** For a reading inside its bucket, a range of buckets is a range of time. */
  lemma RangeIsTime<V>(r: Reading<V>, resolution: int, lo: int, hi: int)
    requires resolution > 0 && OnGrid(lo, resolution) && OnGrid(hi, resolution)
    requires Inside(r.observedAt, resolution)
    ensures InRange(r, At(resolution), lo, hi) <==> lo * SECOND <= r.observedAt < (hi + resolution) * SECOND
  {
    var b := Bucket(r.observedAt, resolution);
    BucketOnGrid(r.observedAt, resolution);
    BucketHoldsInstant(r.observedAt, resolution);
    if b < lo < b + resolution {
      GridApart(lo, b, resolution);
    }
    if hi < b < hi + resolution {
      GridApart(b, hi, resolution);
    }
  }

  /** Carrying forward: the newest up to a cursor is the cursor's own bucket if it has a reading, and
      otherwise what the step before had. */
  lemma {:induction false} LastCarries<V>(rs: seq<Reading<V>>, bucket: Bucketing, resolution: int, first: int, c: int)
    requires Monotone(bucket) && StepsAt(bucket, resolution, c) && first <= c && resolution > 0
    ensures Last(rs, bucket, first, c) ==
      if Last(rs, bucket, c, c).Some? then Last(rs, bucket, c, c) else Last(rs, bucket, first, c - resolution)
  {
    if rs != [] {
      var init, r := rs[..|rs| - 1], rs[|rs| - 1];
      LastCarries(init, bucket, resolution, first, c);
      LastIsNewest(init, bucket, c, c);
      LastIsNewest(init, bucket, first, c - resolution);
      assert bucket(r.observedAt) <= c - resolution || c <= bucket(r.observedAt);
    }
  }

  // ------------------------------------------------------------------
  // The dictionaries
  // ------------------------------------------------------------------

  /** A dictionary from each non-empty bucket to its newest reading. */
  ghost predicate NewestByBucket<V>(rs: seq<Reading<V>>, bucket: Bucketing, table: map<int, Reading<V>>) {
    forall k :: (if k in table then Some(table[k]) else None) == Last(rs, bucket, k, k)
  }

  method LatestByBucket<V>(rs: seq<Reading<V>>, bucket: Bucketing) returns (table: map<int, Reading<V>>)
    ensures NewestByBucket(rs, bucket, table)
  {
    table := map[];
    for i := 0 to |rs|
      invariant NewestByBucket(rs[..i], bucket, table)
    {
      assert rs[..i + 1][..i] == rs[..i];
      var key := bucket(rs[i].observedAt);
      if key !in table || table[key].observedAt < rs[i].observedAt {
        table := table[key := rs[i]];
      }
    }
    assert rs[..|rs|] == rs;
  }

  /** The readings of one bucket, in order. */
  function InBucket<V>(rs: seq<Reading<V>>, bucket: Bucketing, k: int): seq<Reading<V>> {
    if rs == [] then [] else
      var init, r := InBucket(rs[..|rs| - 1], bucket, k), rs[|rs| - 1];
      if bucket(r.observedAt) == k then init + [r] else init
  }

  lemma {:induction false} InBucketIs<V>(rs: seq<Reading<V>>, bucket: Bucketing, k: int)
    ensures forall r :: r in InBucket(rs, bucket, k) <==> r in rs && bucket(r.observedAt) == k
  {
    if rs != [] {
      InBucketIs(rs[..|rs| - 1], bucket, k);
      assert rs == rs[..|rs| - 1] + [rs[|rs| - 1]];
    }
  }

  lemma {:induction false} InBucketEmpty<V>(rs: seq<Reading<V>>, bucket: Bucketing, k: int)
    ensures InBucket(rs, bucket, k) == [] <==> Last(rs, bucket, k, k).None?
  {
    if rs != [] {
      InBucketEmpty(rs[..|rs| - 1], bucket, k);
    }
  }

  ghost predicate ListedByBucket<V>(rs: seq<Reading<V>>, bucket: Bucketing, table: map<int, seq<Reading<V>>>) {
    forall k :: (if k in table then table[k] else []) == InBucket(rs, bucket, k) && (k in table ==> table[k] != [])
  }

  method AllByBucket<V>(rs: seq<Reading<V>>, bucket: Bucketing) returns (table: map<int, seq<Reading<V>>>)
    ensures ListedByBucket(rs, bucket, table)
  {
    table := map[];
    for i := 0 to |rs|
      invariant ListedByBucket(rs[..i], bucket, table)
    {
      assert rs[..i + 1][..i] == rs[..i];
      var key := bucket(rs[i].observedAt);
      table := table[key := (if key in table then table[key] else []) + [rs[i]]];
    }
    assert rs[..|rs|] == rs;
  }

  /** The whole of the latest non-empty bucket of a range. */
  function LastBucket<V>(rs: seq<Reading<V>>, bucket: Bucketing, lo: int, hi: int): seq<Reading<V>> {
    var last := Last(rs, bucket, lo, hi);
    if last.None? then [] else InBucket(rs, bucket, bucket(last.value.observedAt))
  }

  /** A bucket of the range after which no reading of the range has its bucket. */
  ghost predicate Latest<V>(rs: seq<Reading<V>>, bucket: Bucketing, lo: int, hi: int, k: int) {
    lo <= k <= hi && forall r :: r in rs && InRange(r, bucket, lo, hi) ==> bucket(r.observedAt) <= k
  }

  /** It is empty exactly when the range is, and otherwise lists the readings of the range's latest bucket. */
  lemma LastBucketIs<V>(rs: seq<Reading<V>>, bucket: Bucketing, lo: int, hi: int)
    requires Monotone(bucket)
    ensures LastBucket(rs, bucket, lo, hi) == [] <==> forall r :: r in rs ==> !InRange(r, bucket, lo, hi)
    ensures LastBucket(rs, bucket, lo, hi) != [] ==>
      exists k :: Latest(rs, bucket, lo, hi, k) && LastBucket(rs, bucket, lo, hi) == InBucket(rs, bucket, k)
  {
    LastIsNewest(rs, bucket, lo, hi);
    var last := Last(rs, bucket, lo, hi);
    if last.Some? {
      var k := bucket(last.value.observedAt);
      InBucketIs(rs, bucket, k);
      assert last.value in InBucket(rs, bucket, k);
      assert Latest(rs, bucket, lo, hi, k);
    }
  }

  lemma LastBucketCarries<V>(rs: seq<Reading<V>>, bucket: Bucketing, resolution: int, first: int, c: int)
    requires Monotone(bucket) && StepsAt(bucket, resolution, c) && first <= c && resolution > 0
    ensures LastBucket(rs, bucket, first, c) ==
      if InBucket(rs, bucket, c) != [] then InBucket(rs, bucket, c) else LastBucket(rs, bucket, first, c - resolution)
  {
    LastCarries(rs, bucket, resolution, first, c);
    LastIsNewest(rs, bucket, c, c);
    InBucketEmpty(rs, bucket, c);
  }
}
