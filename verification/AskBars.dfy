/** Ask bars rebuilt from tick history (`_fetch_ask_bars`).

Ticks arrive newest first in pages of any size and are bucketed into the venue's own bars.
*/
module AskBars {
  import opened Common

  datatype Tick = Tick(ts: int, price: real)

  /** First, last, highest and lowest tick of a bar so far. */
  datatype Bucket = Bucket(firstTs: int, open: real, lastTs: int, close: real, high: real, low: real)

  /** The history of the window `[from, to]`, newest first, no two ticks at one time. */
  predicate History(ticks: seq<Tick>, from: int, to: int) {
    && (forall i, j :: 0 <= i < j < |ticks| ==> ticks[i].ts > ticks[j].ts)
    && forall i :: 0 <= i < |ticks| ==> from <= ticks[i].ts <= to
  }

  /** No two ticks at one time, in whatever order. */
  predicate DistinctTimes(ticks: seq<Tick>) {
    forall i, j :: 0 <= i < j < |ticks| ==> ticks[i].ts != ticks[j].ts
  }

  /** Bar `j` is the one that holds the time: the newest that opens at or before it. */
  predicate BarHolds(opens: seq<int>, j: int, ts: int) {
    0 <= j < |opens| && opens[j] <= ts && (j + 1 < |opens| ==> ts < opens[j + 1])
  }

  method BisectRight(opens: seq<int>, ts: int) returns (index: int)
    requires Increasing(opens)
    ensures 0 <= index <= |opens|
    ensures forall j :: 0 <= j < |opens| ==> (opens[j] <= ts <==> j < index)
  {
    var lo, hi := 0, |opens|;
    while lo < hi
      invariant 0 <= lo <= hi <= |opens|
      invariant forall j :: 0 <= j < lo ==> opens[j] <= ts
      invariant forall j :: hi <= j < |opens| ==> ts < opens[j]
    {
      var mid := (lo + hi) / 2;
      if ts < opens[mid] {
        hi := mid;
      } else {
        lo := mid + 1;
      }
    }
    index := lo;
  }

  /** Tick `i` counts in the bar opening at `key`. */
  ghost predicate Counts(ticks: seq<Tick>, opens: seq<int>, to: int, key: int, i: int) {
    0 <= i < |ticks| && ticks[i].ts < to && exists j :: BarHolds(opens, j, ticks[i].ts) && opens[j] == key
  }

  /** The bucket is the first, last, highest and lowest of the bar's ticks among the first `n`. */
  ghost predicate Aggregates(b: Bucket, ticks: seq<Tick>, opens: seq<int>, to: int, key: int, n: int)
    requires n <= |ticks|
  {
    && (forall i :: 0 <= i < n && Counts(ticks, opens, to, key, i) ==>
          && b.firstTs <= ticks[i].ts <= b.lastTs
          && b.low <= ticks[i].price <= b.high
          && (ticks[i].ts == b.firstTs ==> ticks[i].price == b.open)
          && (ticks[i].ts == b.lastTs ==> ticks[i].price == b.close))
    && (exists i :: 0 <= i < n && Counts(ticks, opens, to, key, i) && ticks[i].ts == b.firstTs)
    && (exists i :: 0 <= i < n && Counts(ticks, opens, to, key, i) && ticks[i].ts == b.lastTs)
    && (exists i :: 0 <= i < n && Counts(ticks, opens, to, key, i) && ticks[i].price == b.high)
    && (exists i :: 0 <= i < n && Counts(ticks, opens, to, key, i) && ticks[i].price == b.low)
  }

  /** Every bar with a tick among the first `n` has its bucket, and no other bar has one. */
  ghost predicate Bucketed(buckets: map<int, Bucket>, ticks: seq<Tick>, opens: seq<int>, to: int, n: int)
    requires n <= |ticks|
  {
    && (forall key :: key in buckets ==> Aggregates(buckets[key], ticks, opens, to, key, n))
    && AllHaveBuckets(buckets, ticks, opens, to, n)
  }

  ghost predicate AllHaveBuckets(buckets: map<int, Bucket>, ticks: seq<Tick>, opens: seq<int>, to: int, n: int)
    requires n <= |ticks|
  {
    forall i :: 0 <= i < n ==> HasBucket(buckets, ticks, opens, to, i)
  }

  /** The bar of tick `i`, if any, has a bucket. */
  ghost predicate HasBucket(buckets: map<int, Bucket>, ticks: seq<Tick>, opens: seq<int>, to: int, i: int)
    requires 0 <= i < |ticks|
  {
    forall key :: Counts(ticks, opens, to, key, i) ==> key in buckets
  }

  function Join(b: Bucket, t: Tick): Bucket {
    Bucket(if t.ts < b.firstTs then t.ts else b.firstTs, if t.ts < b.firstTs then t.price else b.open,
           if t.ts > b.lastTs then t.ts else b.lastTs, if t.ts > b.lastTs then t.price else b.close,
           if t.price > b.high then t.price else b.high, if t.price < b.low then t.price else b.low)
  }

  /** Joining the bar's next tick keeps its bucket the aggregate. */
  lemma JoinAggregates(b: Bucket, ticks: seq<Tick>, opens: seq<int>, to: int, key: int, n: int)
    requires DistinctTimes(ticks) && 0 <= n < |ticks|
    requires Aggregates(b, ticks, opens, to, key, n) && Counts(ticks, opens, to, key, n)
    ensures Aggregates(Join(b, ticks[n]), ticks, opens, to, key, n + 1)
  {
  }

  /** A tick of another bar leaves the bucket the aggregate. */
  lemma OtherBarAggregates(b: Bucket, ticks: seq<Tick>, opens: seq<int>, to: int, key: int, n: int)
    requires 0 <= n < |ticks| && Aggregates(b, ticks, opens, to, key, n) && !Counts(ticks, opens, to, key, n)
    ensures Aggregates(b, ticks, opens, to, key, n + 1)
  {
  }

  /** The first tick of a bar is its aggregate. */
  lemma FirstTickAggregates(buckets: map<int, Bucket>, ticks: seq<Tick>, opens: seq<int>, to: int, key: int, n: int)
    requires 0 <= n < |ticks| && Bucketed(buckets, ticks, opens, to, n) && key !in buckets
    requires Counts(ticks, opens, to, key, n)
    ensures var t := ticks[n];
            Aggregates(Bucket(t.ts, t.price, t.ts, t.price, t.price, t.price), ticks, opens, to, key, n + 1)
  {
    forall i | 0 <= i < n
      ensures !Counts(ticks, opens, to, key, i)
    {
      assert HasBucket(buckets, ticks, opens, to, i);
    }
  }

  /** A time lies in one bar only. */
  lemma OneBar(ticks: seq<Tick>, opens: seq<int>, to: int, key: int, other: int, i: int)
    requires Increasing(opens) && Counts(ticks, opens, to, key, i) && Counts(ticks, opens, to, other, i)
    ensures key == other
  {
  }

  /** Where the next tick is put into its bar's bucket, the buckets stay the aggregates. */
  lemma BucketedNext(
    buckets: map<int, Bucket>, b: Bucket, ticks: seq<Tick>, opens: seq<int>, to: int, key: int, n: int)
    requires 0 <= n < |ticks| && Increasing(opens) && Bucketed(buckets, ticks, opens, to, n)
    requires Counts(ticks, opens, to, key, n) && Aggregates(b, ticks, opens, to, key, n + 1)
    ensures Bucketed(buckets[key := b], ticks, opens, to, n + 1)
  {
    forall other | other in buckets && other != key
      ensures Aggregates(buckets[other], ticks, opens, to, other, n + 1)
    {
      OtherBucketNext(buckets, ticks, opens, to, key, other, n);
    }
    AllKeepBuckets(buckets, b, ticks, opens, to, key, n);
  }

  lemma AllKeepBuckets(
    buckets: map<int, Bucket>, b: Bucket, ticks: seq<Tick>, opens: seq<int>, to: int, key: int, n: int)
    requires 0 <= n < |ticks| && Increasing(opens) && Counts(ticks, opens, to, key, n)
    requires AllHaveBuckets(buckets, ticks, opens, to, n)
    ensures AllHaveBuckets(buckets[key := b], ticks, opens, to, n + 1)
  {
    var next := buckets[key := b];
    forall i | 0 <= i < n + 1
      ensures HasBucket(next, ticks, opens, to, i)
    {
      BucketKept(buckets, b, ticks, opens, to, key, n, i);
    }
  }

  lemma BucketKept(
    buckets: map<int, Bucket>, b: Bucket, ticks: seq<Tick>, opens: seq<int>, to: int, key: int, n: int, i: int)
    requires 0 <= i <= n < |ticks| && Increasing(opens) && Counts(ticks, opens, to, key, n)
    requires i < n ==> HasBucket(buckets, ticks, opens, to, i)
    ensures HasBucket(buckets[key := b], ticks, opens, to, i)
  {
    forall other | Counts(ticks, opens, to, other, i)
      ensures other in buckets[key := b]
    {
      if i == n {
        OneBar(ticks, opens, to, key, other, n);
      }
    }
  }

  lemma OtherBucketNext(
    buckets: map<int, Bucket>, ticks: seq<Tick>, opens: seq<int>, to: int, key: int, other: int, n: int)
    requires 0 <= n < |ticks| && Increasing(opens) && Bucketed(buckets, ticks, opens, to, n)
    requires Counts(ticks, opens, to, key, n) && other in buckets && other != key
    ensures Aggregates(buckets[other], ticks, opens, to, other, n + 1)
  {
    if Counts(ticks, opens, to, other, n) {
      OneBar(ticks, opens, to, key, other, n);
    } else {
      OtherBarAggregates(buckets[other], ticks, opens, to, other, n);
    }
  }

  lemma BucketedSkip(buckets: map<int, Bucket>, ticks: seq<Tick>, opens: seq<int>, to: int, n: int)
    requires 0 <= n < |ticks| && Bucketed(buckets, ticks, opens, to, n)
    requires forall key :: !Counts(ticks, opens, to, key, n)
    ensures Bucketed(buckets, ticks, opens, to, n + 1)
  {
    forall key | key in buckets
      ensures Aggregates(buckets[key], ticks, opens, to, key, n + 1)
    {
      OtherBarAggregates(buckets[key], ticks, opens, to, key, n);
    }
  }

  /** One tick put into its bar's bucket. */
  method AddTick(buckets: map<int, Bucket>, ticks: seq<Tick>, opens: seq<int>, to: int, n: nat)
    returns (next: map<int, Bucket>)
    requires Increasing(opens) && DistinctTimes(ticks) && n < |ticks| && Bucketed(buckets, ticks, opens, to, n)
    ensures Bucketed(next, ticks, opens, to, n + 1)
  {
    var tick := ticks[n];
    var index := BisectRight(opens, tick.ts);
    if tick.ts >= to || index == 0 {
      BucketedSkip(buckets, ticks, opens, to, n);
      return buckets;
    }
    var key := opens[index - 1];
    assert BarHolds(opens, index - 1, tick.ts);
    assert Counts(ticks, opens, to, key, n);
    var bucket := Bucket(tick.ts, tick.price, tick.ts, tick.price, tick.price, tick.price);
    if key in buckets {
      bucket := Join(buckets[key], tick);
      JoinAggregates(buckets[key], ticks, opens, to, key, n);
    } else {
      FirstTickAggregates(buckets, ticks, opens, to, key, n);
    }
    BucketedNext(buckets, bucket, ticks, opens, to, key, n);
    next := buckets[key := bucket];
  }

  /** The same ticks in any other order, with any other page split, give the same bucket. */
  lemma AggregateIsOrderIndependent(
    b: Bucket, c: Bucket, ticks: seq<Tick>, shuffled: seq<Tick>, opens: seq<int>, to: int, key: int)
    requires DistinctTimes(ticks) && forall t :: t in ticks <==> t in shuffled
    requires Aggregates(b, ticks, opens, to, key, |ticks|) && Aggregates(c, shuffled, opens, to, key, |shuffled|)
    ensures b == c
  {
    SameExtremes(b, c, ticks, shuffled, opens, to, key);
    SameExtremes(c, b, shuffled, ticks, opens, to, key);
    var i :| 0 <= i < |ticks| && Counts(ticks, opens, to, key, i) && ticks[i].ts == b.firstTs;
    var j :| 0 <= j < |ticks| && Counts(ticks, opens, to, key, j) && ticks[j].ts == b.lastTs;
    var k := SameTick(ticks, shuffled, opens, to, key, i);
    var l := SameTick(ticks, shuffled, opens, to, key, j);
  }

  lemma SameTick(ticks: seq<Tick>, shuffled: seq<Tick>, opens: seq<int>, to: int, key: int, i: int) returns (k: int)
    requires Counts(ticks, opens, to, key, i) && forall t :: t in ticks <==> t in shuffled
    ensures Counts(shuffled, opens, to, key, k) && shuffled[k] == ticks[i]
  {
    assert ticks[i] in shuffled;
    k :| 0 <= k < |shuffled| && shuffled[k] == ticks[i];
  }

  lemma SameExtremes(b: Bucket, c: Bucket, ticks: seq<Tick>, shuffled: seq<Tick>, opens: seq<int>, to: int, key: int)
    requires forall t :: t in ticks <==> t in shuffled
    requires Aggregates(b, ticks, opens, to, key, |ticks|) && Aggregates(c, shuffled, opens, to, key, |shuffled|)
    ensures c.firstTs <= b.firstTs && b.lastTs <= c.lastTs && c.low <= b.low && b.high <= c.high
  {
    var f :| 0 <= f < |ticks| && Counts(ticks, opens, to, key, f) && ticks[f].ts == b.firstTs;
    var l :| 0 <= l < |ticks| && Counts(ticks, opens, to, key, l) && ticks[l].ts == b.lastTs;
    var h :| 0 <= h < |ticks| && Counts(ticks, opens, to, key, h) && ticks[h].price == b.high;
    var w :| 0 <= w < |ticks| && Counts(ticks, opens, to, key, w) && ticks[w].price == b.low;
    var f' := SameTick(ticks, shuffled, opens, to, key, f);
    var l' := SameTick(ticks, shuffled, opens, to, key, l);
    var h' := SameTick(ticks, shuffled, opens, to, key, h);
    var w' := SameTick(ticks, shuffled, opens, to, key, w);
  }

  /** One page: the ticks from `start` to `end`. */
  method AddPage(buckets: map<int, Bucket>, ticks: seq<Tick>, opens: seq<int>, to: int, start: nat, end: nat)
    returns (next: map<int, Bucket>)
    requires Increasing(opens) && DistinctTimes(ticks) && start <= end <= |ticks|
    requires Bucketed(buckets, ticks, opens, to, start)
    ensures Bucketed(next, ticks, opens, to, end)
  {
    next := buckets;
    for i := start to end
      invariant Bucketed(next, ticks, opens, to, i)
    {
      next := AddTick(next, ticks, opens, to, i);
    }
  }

  /** How many ticks are newer than `upper`. */
  function Newer(ticks: seq<Tick>, upper: int): nat {
    if ticks == [] || ticks[0].ts <= upper then 0 else 1 + Newer(ticks[1..], upper)
  }

  lemma {:induction false} NewerThanUpper(ticks: seq<Tick>, from: int, to: int, n: nat, upper: int)
    requires History(ticks, from, to) && n <= |ticks|
    requires n == 0 ==> to <= upper
    requires n > 0 ==> upper == ticks[n - 1].ts - 1
    ensures Newer(ticks, upper) == n
  {
    if n > 0 {
      if n > 1 {
        assert ticks[1..][n - 2] == ticks[n - 1];
        NewerThanUpper(ticks[1..], from, to, n - 1, upper);
      } else if |ticks| > 1 {
        assert ticks[1..][0].ts <= upper;
      }
    }
  }

  /** Where the `k`-th page ends when page `i` has `sizes(i)` ticks. */
  function PageEnd(sizes: nat -> nat, k: nat): nat {
    if k == 0 then 0 else PageEnd(sizes, k - 1) + sizes(k - 1)
  }

  /** The one tick the drain can miss: the oldest, at the window's very start, when a capped page
      ended right before it at the next millisecond. */
  ghost predicate MissesOldest(ticks: seq<Tick>, from: int, sizes: nat -> nat) {
    && |ticks| > 1 && ticks[|ticks| - 1].ts == from && ticks[|ticks| - 2].ts == from + 1
    && exists k :: PageEnd(sizes, k) == |ticks| - 1
  }

  /** `_fetch_ask_bars` against a server that answers request `k` with the newest `sizes(k)` ticks up
      to `upper`: the buckets are the aggregates of all the window's ticks, except the oldest one in
      exactly the case above. */
  method FetchAskBars(from: int, to: int, opens: seq<int>, ticks: seq<Tick>, sizes: nat -> nat)
    returns (buckets: map<int, Bucket>, read: nat)
    requires from < to && Increasing(opens) && History(ticks, from, to)
    requires forall k :: sizes(k) > 0
    ensures read <= |ticks|
    ensures opens != [] ==> Bucketed(buckets, ticks, opens, to, read)
    ensures opens == [] ==> buckets == map[]
    ensures opens != [] ==> read == if MissesOldest(ticks, from, sizes) then |ticks| - 1 else |ticks|
  {
    buckets, read := map[], 0;
    if opens == [] {
      return;
    }
    var upper := to;
    var k := 0;
    while upper > from
      invariant read <= |ticks| && read == PageEnd(sizes, k)
      invariant upper == if read == 0 then to else ticks[read - 1].ts - 1
      invariant read > 0 ==> read < |ticks|
      invariant Bucketed(buckets, ticks, opens, to, read)
      invariant read > 0 && upper <= from ==> MissesOldest(ticks, from, sizes) && read == |ticks| - 1
      invariant read > 0 && upper > from ==> ticks[read - 1].ts > from + 1
      decreases |ticks| - read
    {
      NewerThanUpper(ticks, from, to, read, upper);
      var start := Newer(ticks, upper);
      var end := Min(start + sizes(k), |ticks|);
      var hasMore := start + sizes(k) < |ticks|;
      assert PageEnd(sizes, k + 1) == start + sizes(k);
      if start == end {
        return;
      }
      buckets := AddPage(buckets, ticks, opens, to, start, end);
      read := end;
      k := k + 1;
      if !hasMore {
        NothingMissed(ticks, from, to, sizes, k);
        return;
      }
      upper := ticks[end - 1].ts - 1;
      if upper <= from {
        OldestMissed(ticks, from, to, sizes, k);
      }
    }
  }

  /** The last page reached the end: no page ended right before the oldest tick, or the ticks there
      are not a millisecond apart. */
  lemma NothingMissed(ticks: seq<Tick>, from: int, to: int, sizes: nat -> nat, k: nat)
    requires History(ticks, from, to) && k > 0 && forall i :: sizes(i) > 0
    requires PageEnd(sizes, k) >= |ticks| && PageEnd(sizes, k - 1) < |ticks|
    requires PageEnd(sizes, k - 1) > 0 ==> ticks[PageEnd(sizes, k - 1) - 1].ts > from + 1
    ensures !MissesOldest(ticks, from, sizes)
  {
    if exists i: nat :: PageEnd(sizes, i) == |ticks| - 1 {
      var i: nat :| PageEnd(sizes, i) == |ticks| - 1;
      if i < k - 1 {
        PageEndsGrow(sizes, i + 1, k - 1);
      } else if i >= k {
        PageEndsGrow(sizes, k, i);
      }
    }
  }

  /** The guard ended the drain: exactly the oldest tick is unread. */
  lemma OldestMissed(ticks: seq<Tick>, from: int, to: int, sizes: nat -> nat, k: nat)
    requires History(ticks, from, to) && 0 < PageEnd(sizes, k) < |ticks|
    requires ticks[PageEnd(sizes, k) - 1].ts - 1 <= from
    ensures MissesOldest(ticks, from, sizes) && PageEnd(sizes, k) == |ticks| - 1
  {
  }

  lemma {:induction false} PageEndsGrow(sizes: nat -> nat, i: nat, j: nat)
    requires i <= j
    ensures PageEnd(sizes, i) <= PageEnd(sizes, j)
  {
    if i < j {
      PageEndsGrow(sizes, i, j - 1);
    }
  }
}
