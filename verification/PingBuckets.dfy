/** Ping tracking: a smoothed value over three samples, and a ring of time buckets. */
module PingBuckets {
  import opened Basics

  const INT_MAX := 0x7FFF_FFFF
  const INT_MIN := -0x8000_0000

  /** Samples closer than this, in microseconds, are merged. */
  const MIN_SAMPLE_SPACING := 100_000

  /** The clock starts at 30 days, in microseconds. */
  const CLOCK_START := 24 * 3600 * 30 * 1_000_000

  const OVERRIDE_NONE := -2

  datatype Ping = Ping(ms: int, time: int)

  datatype TimeBucket = TimeBucket(end: int, count: int, min: int, max: int)

  function EmptyBucket(): TimeBucket { TimeBucket(0, 0, INT_MAX, INT_MIN) }

  // --- The smoothed ping ----------------------------------------------------------------

  /** The smoothed value of a full sample: the average of the two best. */
  function Smoothed(a: int, b: int, c: int): int
  {
    (a + b + c - Max(Max(a, b), c)) / 2
  }

  /** A single spike cannot raise the smoothed ping above the second best sample. */
  lemma {:induction false} SmoothedIgnoresSpike(a: int, b: int, c: int)
    requires 0 <= a && 0 <= b && 0 <= c
    ensures Min(Min(a, b), c) <= Smoothed(a, b, c)
    ensures Smoothed(a, b, c) <= Max(a, b) && Smoothed(a, b, c) <= Max(b, c) && Smoothed(a, b, c) <= Max(a, c)
  {
    if a <= b <= c || b <= a <= c {
    } else if a <= c <= b || c <= a <= b {
    } else {
    }
  }

  /** It is the average of two samples, rounded down, and the third is not better than these. */
  lemma {:induction false} SmoothedIsAverage(a: int, b: int, c: int)
    ensures a <= c && b <= c ==> Smoothed(a, b, c) == (a + b) / 2
    ensures a <= b && c <= b ==> Smoothed(a, b, c) == (a + c) / 2
    ensures b <= a && c <= a ==> Smoothed(a, b, c) == (b + c) / 2
  {}

  // --- What a bucket knows about the pings received -------------------------------------

  predicate InBucket(b: TimeBucket, width: int, p: Ping)
  {
    b.count > 0 && b.end - width <= p.time < b.end
  }

  /** The extremes of the bucket are those of the pings received during it. */
  ghost predicate Summarizes(b: TimeBucket, width: int, pings: seq<Ping>)
  {
    b.count > 0 ==>
      && (forall p :: p in pings && InBucket(b, width, p) ==> b.min <= p.ms <= b.max)
      && (exists p :: p in pings && InBucket(b, width, p) && p.ms == b.min)
      && (exists p :: p in pings && InBucket(b, width, p) && p.ms == b.max)
  }

  /** The bucket that is `age` steps behind the current one. */
  function Slot(current: nat, age: int, n: int): int
    requires 0 <= current < n && 0 <= age < n
  {
    if age <= current then current - age else current - age + n
  }

  /** Newest first, the buckets in use end at least one width apart. */
  ghost predicate Spaced(buckets: seq<TimeBucket>, current: nat, used: nat, width: int)
    requires current < |buckets| && used <= |buckets|
  {
    && (forall k :: 0 <= k < |buckets| ==>
          if k < used then buckets[Slot(current, k, |buckets|)].count > 0
          else buckets[Slot(current, k, |buckets|)] == EmptyBucket())
    && (forall k :: 0 <= k < used - 1 ==>
          buckets[Slot(current, k + 1, |buckets|)].end + width <= buckets[Slot(current, k, |buckets|)].end)
  }

  lemma {:induction false} SpacedApart(buckets: seq<TimeBucket>, current: nat, used: nat, width: int, j: nat, k: nat)
    requires current < |buckets| && used <= |buckets| && Spaced(buckets, current, used, width)
    requires j <= k < used
    ensures buckets[Slot(current, k, |buckets|)].end + (k - j) * width <= buckets[Slot(current, j, |buckets|)].end
    decreases k
  {
    if j < k {
      SpacedApart(buckets, current, used, width, j, k - 1);
      assert buckets[Slot(current, k - 1 + 1, |buckets|)].end + width <= buckets[Slot(current, k - 1, |buckets|)].end;
      assert (k - j) * width == (k - 1 - j) * width + width;
    }
  }

  ghost predicate Found(buckets: seq<TimeBucket>, width: int, p: Ping)
  {
    exists i :: 0 <= i < |buckets| && InBucket(buckets[i], width, p)
  }

  function Span(n: int, width: int): int { n * width }

  lemma SpanStep(n: int, width: int)
    ensures Span(n, width) == Span(n - 1, width) + width
  {}

  ghost predicate AllSummarize(buckets: seq<TimeBucket>, width: int, pings: seq<Ping>)
  {
    forall i :: 0 <= i < |buckets| ==> Summarizes(buckets[i], width, pings)
  }

  /** Pings end before the current bucket does, and each is in a bucket unless it is old. */
  ghost predicate AllFound(buckets: seq<TimeBucket>, current: nat, width: int, pings: seq<Ping>)
    requires current < |buckets|
  {
    forall p :: p in pings ==>
      p.time < buckets[current].end &&
      (p.time < buckets[current].end - Span(|buckets|, width) || Found(buckets, width, p))
  }

  /** Everything the ring says about the pings received so far. */
  ghost predicate Faithful(buckets: seq<TimeBucket>, current: nat, used: nat, width: int, pings: seq<Ping>)
    requires current < |buckets| && used <= |buckets|
  {
    && Spaced(buckets, current, used, width)
    && AllSummarize(buckets, width, pings)
    && AllFound(buckets, current, width, pings)
    && (used == 0 <==> pings == [])
    && (pings != [] ==> buckets[current].end - width <= pings[|pings| - 1].time)
  }

  function WithPing(b: TimeBucket, ms: int): TimeBucket
  {
    TimeBucket(b.end, b.count + 1, Min(b.min, ms), Max(b.max, ms))
  }

  lemma {:induction false} AddSpaced(buckets: seq<TimeBucket>, current: nat, used: nat, width: int, b: TimeBucket)
    requires current < |buckets| && used <= |buckets| && Spaced(buckets, current, used, width)
    requires b.count > 0 && b.end == buckets[current].end && used > 0
    ensures Spaced(buckets[current := b], current, used, width)
  {
    var n := |buckets|;
    assert Slot(current, 0, n) == current;
    assert forall k :: 0 < k < n ==> Slot(current, k, n) != current;
  }

  lemma {:induction false} AddSummarizes(buckets: seq<TimeBucket>, current: nat, used: nat, width: int,
                                         pings: seq<Ping>, p: Ping)
    requires current < |buckets| && used <= |buckets| && width > 0 && Spaced(buckets, current, used, width)
    requires AllSummarize(buckets, width, pings) && buckets[current].count > 0
    requires buckets[current].end - width <= p.time < buckets[current].end
    ensures AllSummarize(buckets[current := WithPing(buckets[current], p.ms)], width, pings + [p])
  {
    var b := buckets[current := WithPing(buckets[current], p.ms)];
    hide Summarizes;
    forall i | 0 <= i < |b|
      ensures Summarizes(b[i], width, pings + [p])
    {
      if i == current {
        MoreInBucket(buckets[current], width, pings, p);
      } else {
        if buckets[i].count > 0 {
          OtherBucketsEnded(buckets, current, used, width, i);
        }
        StillSummarizes(buckets[i], width, pings, p);
      }
    }
  }

  lemma {:induction false} AddFound(buckets: seq<TimeBucket>, current: nat, width: int, pings: seq<Ping>, p: Ping)
    requires current < |buckets| && AllFound(buckets, current, width, pings) && buckets[current].count > 0
    requires buckets[current].end - width <= p.time < buckets[current].end
    ensures AllFound(buckets[current := WithPing(buckets[current], p.ms)], current, width, pings + [p])
  {
    hide Span;
    var b := buckets[current := WithPing(buckets[current], p.ms)];
    assert InBucket(b[current], width, p);
    forall q | q in pings && Found(buckets, width, q)
      ensures Found(b, width, q)
    {
      var i :| 0 <= i < |b| && InBucket(buckets[i], width, q);
      assert InBucket(b[i], width, q);
    }
  }

  /** One more ping in the current bucket. */
  lemma {:induction false} AddToCurrent(buckets: seq<TimeBucket>, current: nat, used: nat, width: int,
                                        pings: seq<Ping>, p: Ping)
    requires current < |buckets| && used <= |buckets| && width > 0
    requires Faithful(buckets, current, used, width, pings) && pings != []
    requires pings[|pings| - 1].time <= p.time < buckets[current].end
    ensures Faithful(buckets[current := WithPing(buckets[current], p.ms)], current, used, width, pings + [p])
  {
    assert Slot(current, 0, |buckets|) == current;
    AddSpaced(buckets, current, used, width, WithPing(buckets[current], p.ms));
    AddSummarizes(buckets, current, used, width, pings, p);
    AddFound(buckets, current, width, pings, p);
    hide Spaced, AllSummarize, AllFound;
  }

  lemma {:induction false} MoreInBucket(b: TimeBucket, width: int, pings: seq<Ping>, p: Ping)
    requires Summarizes(b, width, pings) && b.count > 0 && b.end - width <= p.time < b.end
    ensures Summarizes(WithPing(b, p.ms), width, pings + [p])
  {
    var c, all := WithPing(b, p.ms), pings + [p];
    assert p in all && InBucket(c, width, p);
    var lo :| lo in pings && InBucket(b, width, lo) && lo.ms == b.min;
    var hi :| hi in pings && InBucket(b, width, hi) && hi.ms == b.max;
    assert lo in all && hi in all && InBucket(c, width, lo) && InBucket(c, width, hi);
    forall q | q in all && InBucket(c, width, q)
      ensures c.min <= q.ms <= c.max
    {
      assert q == p || (q in pings && InBucket(b, width, q));
    }
  }

  lemma {:induction false} StillSummarizes(b: TimeBucket, width: int, pings: seq<Ping>, p: Ping)
    requires Summarizes(b, width, pings) && !InBucket(b, width, p)
    ensures Summarizes(b, width, pings + [p])
  {
    if b.count > 0 {
      var all := pings + [p];
      var lo :| lo in pings && InBucket(b, width, lo) && lo.ms == b.min;
      var hi :| hi in pings && InBucket(b, width, hi) && hi.ms == b.max;
      assert lo in all && hi in all;
      forall q | q in all && InBucket(b, width, q)
        ensures b.min <= q.ms <= b.max
      {
        assert q == p || q in pings;
      }
    }
  }

  lemma {:induction false} OtherBucketsEnded(buckets: seq<TimeBucket>, current: nat, used: nat, width: int, i: nat)
    requires current < |buckets| && used <= |buckets| && width > 0 && Spaced(buckets, current, used, width)
    requires i < |buckets| && buckets[i].count > 0
    ensures i != current ==> buckets[i].end + width <= buckets[current].end
    ensures buckets[i].end <= buckets[current].end
  {
    var n := |buckets|;
    var age := if i <= current then current - i else current - i + n;
    assert Slot(current, age, n) == i && Slot(current, 0, n) == current;
    SpacedApart(buckets, current, used, width, 0, age);
    if age > 0 {
      assert age * width >= width;
    }
  }

  function Next(current: nat, n: int): nat
    requires current < n
  {
    if current + 1 >= n then 0 else current + 1
  }

  lemma {:induction false} SlotShift(current: nat, k: nat, n: int)
    requires current < n && k < n
    ensures Slot(Next(current, n), 0, n) == Next(current, n)
    ensures k + 1 < n ==> Slot(Next(current, n), k + 1, n) == Slot(current, k, n)
    ensures k + 1 < n ==> Slot(current, k, n) != Next(current, n)
    ensures Slot(current, n - 1, n) == Next(current, n)
  {}

  /** When the next bucket starts: right after the current one, or now. */
  function NextEnd(end: int, width: int, now: int): int
  {
    if end + width / 2 >= now then end + width else now + width
  }

  /** The bucket that a new one replaces ended long ago. */
  lemma {:induction false} RecycledLongAgo(buckets: seq<TimeBucket>, current: nat, used: nat, width: int)
    requires current < |buckets| && used <= |buckets| && Spaced(buckets, current, used, width)
    requires buckets[Next(current, |buckets|)].count > 0
    ensures used == |buckets|
    ensures buckets[Next(current, |buckets|)].end + Span(|buckets| - 1, width) <= buckets[current].end
  {
    var n := |buckets|;
    SlotShift(current, 0, n);
    assert Slot(current, 0, n) == current;
    assert used == n;
    SpacedApart(buckets, current, used, width, 0, n - 1);
  }

  lemma {:induction false} NextIsSpaced(buckets: seq<TimeBucket>, current: nat, used: nat, width: int, b: TimeBucket)
    requires current < |buckets| && used <= |buckets| && Spaced(buckets, current, used, width)
    requires b.count > 0 && (used > 0 ==> buckets[current].end + width <= b.end)
    ensures Spaced(buckets[Next(current, |buckets|) := b], Next(current, |buckets|), Min(used + 1, |buckets|), width)
  {
    var n := |buckets|;
    var next, after, u := Next(current, n), buckets[Next(current, n) := b], Min(used + 1, n);
    assert Slot(current, 0, n) == current;
    forall k | 0 <= k < n
      ensures if k < u then after[Slot(next, k, n)].count > 0 else after[Slot(next, k, n)] == EmptyBucket()
      ensures 0 < k ==> after[Slot(next, k, n)] == buckets[Slot(current, k - 1, n)]
    {
      if k > 0 {
        SlotShift(current, k - 1, n);
      } else {
        SlotShift(current, 0, n);
      }
    }
    forall k | 0 <= k < u - 1
      ensures after[Slot(next, k + 1, n)].end + width <= after[Slot(next, k, n)].end
    {
      if k > 0 {
        assert buckets[Slot(current, k - 1 + 1, n)].end + width <= buckets[Slot(current, k - 1, n)].end;
      } else {
        SlotShift(current, 0, n);
      }
    }
  }

  lemma {:induction false} NextSummarizes(buckets: seq<TimeBucket>, current: nat, used: nat, width: int,
                                          pings: seq<Ping>, p: Ping, b: TimeBucket)
    requires current < |buckets| && used <= |buckets| && width > 0 && Spaced(buckets, current, used, width)
    requires AllSummarize(buckets, width, pings) && buckets[current].end <= p.time
    requires forall q :: q in pings ==> q.time < b.end - width
    requires b.count > 0 && b.min == b.max == p.ms && InBucket(b, width, p)
    ensures AllSummarize(buckets[Next(current, |buckets|) := b], width, pings + [p])
  {
    var after, all := buckets[Next(current, |buckets|) := b], pings + [p];
    forall i | 0 <= i < |buckets|
      ensures Summarizes(after[i], width, all)
    {
      if i == Next(current, |buckets|) {
        assert p in all;
        assert forall q :: q in all && InBucket(b, width, q) ==> q == p;
      } else if buckets[i].count > 0 {
        OtherBucketsEnded(buckets, current, used, width, i);
        StillSummarizes(buckets[i], width, pings, p);
      }
    }
  }

  lemma {:induction false} NextFound(buckets: seq<TimeBucket>, current: nat, used: nat, width: int, pings: seq<Ping>,
                                     p: Ping, b: TimeBucket)
    requires current < |buckets| && used <= |buckets| && width > 0 && Spaced(buckets, current, used, width)
    requires AllFound(buckets, current, width, pings)
    requires pings != [] ==> buckets[current].end + width <= b.end
    requires InBucket(b, width, p)
    ensures AllFound(buckets[Next(current, |buckets|) := b], Next(current, |buckets|), width, pings + [p])
  {
    hide Span;
    var n, next := |buckets|, Next(current, |buckets|);
    var after := buckets[next := b];
    assert InBucket(after[next], width, p);
    forall q | q in pings
      ensures q.time < b.end && (q.time < b.end - Span(n, width) || Found(after, width, q))
    {
      assert pings != [];
      if Found(buckets, width, q) {
        var i :| 0 <= i < n && InBucket(buckets[i], width, q);
        if i == next {
          RecycledLongAgo(buckets, current, used, width);
          SpanStep(n, width);
        } else {
          assert InBucket(after[i], width, q);
        }
      }
    }
  }

  /** A ping after the end of the current bucket starts a new one. */
  lemma {:induction false} StartBucket(buckets: seq<TimeBucket>, current: nat, used: nat, width: int,
                                       pings: seq<Ping>, p: Ping)
    requires current < |buckets| && used <= |buckets| && width > 0
    requires Faithful(buckets, current, used, width, pings)
    requires pings != [] ==> pings[|pings| - 1].time <= p.time
    requires buckets[current].end <= p.time
    ensures var b := TimeBucket(NextEnd(buckets[current].end, width, p.time), 1, p.ms, p.ms);
            Faithful(buckets[Next(current, |buckets|) := b], Next(current, |buckets|), Min(used + 1, |buckets|), width, pings + [p])
  {
    var b := TimeBucket(NextEnd(buckets[current].end, width, p.time), 1, p.ms, p.ms);
    assert forall q :: q in pings ==> q.time < b.end - width;
    assert InBucket(b, width, p);
    NextIsSpaced(buckets, current, used, width, b);
    NextSummarizes(buckets, current, used, width, pings, p, b);
    NextFound(buckets, current, used, width, pings, p, b);
    hide Spaced, AllSummarize, AllFound;
  }

  // --- The bounds over recent buckets ---------------------------------------------------

  /** A bucket counts when it ended less than `n - 1` widths ago. */
  predicate Recent(b: TimeBucket, n: int, width: int, now: int)
  {
    b.end >= now - Span(n - 1, width)
  }

  /** Every ping of the last `n - 1` widths is in a bucket that counts. */
  lemma {:induction false} RecentPingCounts(buckets: seq<TimeBucket>, current: nat, used: nat, width: int,
                                            pings: seq<Ping>, p: Ping, now: int)
    returns (i: nat)
    requires current < |buckets| && used <= |buckets| && width > 0
    requires Faithful(buckets, current, used, width, pings) && p in pings
    requires pings[|pings| - 1].time <= now && now - Span(|buckets| - 1, width) <= p.time
    ensures i < |buckets| && Recent(buckets[i], |buckets|, width, now)
    ensures buckets[i].min <= p.ms <= buckets[i].max
  {
    hide Span, Spaced;
    SpanStep(|buckets|, width);
    assert Found(buckets, width, p);
    i :| 0 <= i < |buckets| && InBucket(buckets[i], width, p);
    assert Summarizes(buckets[i], width, pings);
  }

  /** Every bucket that counts holds pings, all received in the last `n` widths. */
  lemma {:induction false} RecentBucketIsReal(buckets: seq<TimeBucket>, current: nat, used: nat, width: int,
                                              pings: seq<Ping>, i: nat, now: int)
    requires current < |buckets| && used <= |buckets| && width > 0
    requires Faithful(buckets, current, used, width, pings)
    requires i < |buckets| && Recent(buckets[i], |buckets|, width, now) && now > Span(|buckets| - 1, width)
    ensures buckets[i].count > 0 && buckets[i].min <= buckets[i].max
    ensures ReceivedSince(pings, buckets[i].min, now - Span(|buckets|, width))
    ensures ReceivedSince(pings, buckets[i].max, now - Span(|buckets|, width))
  {
    hide Span;
    SpanStep(|buckets|, width);
    var n := |buckets|;
    var age := if i <= current then current - i else current - i + n;
    assert Slot(current, age, n) == i;
    assert Summarizes(buckets[i], width, pings);
    var lo :| lo in pings && InBucket(buckets[i], width, lo) && lo.ms == buckets[i].min;
    var hi :| hi in pings && InBucket(buckets[i], width, hi) && hi.ms == buckets[i].max;
  }

  /** The smoothed ping of the valid samples, newest first; -1 without any. */
  function SmoothedOf(samples: seq<Ping>, valid: int): int
    requires |samples| == 3
  {
    if valid <= 0 then -1
    else if valid == 1 then samples[0].ms
    else if valid == 2 then Min(samples[0].ms, samples[1].ms)
    else Smoothed(samples[0].ms, samples[1].ms, samples[2].ms)
  }

  /** Where samples begin: with each of the first three pings, and later with each ping that comes at
      least the spacing after the ping with which the last sample began. */
  ghost function Starts(pings: seq<Ping>): (starts: seq<nat>)
    ensures |starts| <= |pings| && (pings != [] ==> starts != [])
    ensures |pings| <= 3 ==> |starts| == |pings|
    ensures |pings| >= 3 ==> |starts| >= 3
    ensures forall k :: 0 <= k < |starts| ==> starts[k] < |pings|
    ensures forall k :: 0 <= k < |starts| - 1 ==> starts[k] < starts[k + 1]
    decreases |pings|
  {
    if pings == [] then []
    else
      var n := |pings| - 1;
      var before := Starts(pings[..n]);
      if |before| < 3 || pings[n].time >= pings[before[|before| - 1]].time + 100_000 then before + [n] else before
  }

  /** The least of the pings from index `a` to before index `b`. */
  ghost predicate IsLeast(ms: int, pings: seq<Ping>, a: nat, b: nat)
    requires b <= |pings|
  {
    (exists j :: a <= j < b && pings[j].ms == ms) && forall j :: a <= j < b ==> ms <= pings[j].ms
  }

  /** Where the sample that is `age` samples old ends. */
  ghost function EndOf(starts: seq<nat>, count: nat, age: nat): (end: nat)
    requires age <= |starts| && (age == 0 || |starts| - age < |starts|)
  {
    if age == 0 then count else starts[|starts| - age]
  }

  /** Each valid sample, newest first, is the least of the pings from its beginning to that of the
      next one, with the time of the last of these. */
  ghost predicate Sampled(samples: seq<Ping>, valid: int, allow: int, pings: seq<Ping>)
    requires |samples| == 3
  {
    var starts := Starts(pings);
    && valid == Min(|starts|, 3)
    && allow == (if |starts| < 3 then 0 else pings[starts[|starts| - 1]].time + 100_000)
    && AreSamples(samples, valid, pings, starts)
  }

  ghost predicate AreSamples(samples: seq<Ping>, valid: int, pings: seq<Ping>, starts: seq<nat>)
    requires |samples| == 3 && valid <= |starts| && valid <= 3
  {
    forall i :: 0 <= i < valid ==> IsSample(samples[i], pings, starts[|starts| - 1 - i], EndOf(starts, |pings|, i))
  }

  ghost predicate IsSample(s: Ping, pings: seq<Ping>, a: nat, b: nat)
  {
    a < b <= |pings| && IsLeast(s.ms, pings, a, b) && s.time == pings[b - 1].time
  }

  /** What the three samples become. */
  ghost function SamplesAfter(samples: seq<Ping>, valid: int, allow: int, ms: int, now: int): seq<Ping>
    requires |samples| == 3
  {
    if valid == 3 && now < allow then [Ping(Min(samples[0].ms, ms), now), samples[1], samples[2]]
    else [Ping(ms, now), samples[0], samples[1]]
  }

  lemma {:induction false} SampleStays(s: Ping, pings: seq<Ping>, p: Ping, a: nat, b: nat)
    requires IsSample(s, pings, a, b)
    ensures IsSample(s, pings + [p], a, b)
  {
    var more := pings + [p];
    assert forall j :: a <= j < b ==> more[j] == pings[j];
    var j :| a <= j < b && pings[j].ms == s.ms;
    assert more[j].ms == s.ms;
  }

  lemma {:induction false} SampleGrows(s: Ping, pings: seq<Ping>, p: Ping, a: nat)
    requires IsSample(s, pings, a, |pings|)
    ensures IsSample(Ping(Min(s.ms, p.ms), p.time), pings + [p], a, |pings| + 1)
  {
    var more := pings + [p];
    assert forall j :: a <= j < |pings| ==> more[j] == pings[j];
    var j :| a <= j < |pings| && pings[j].ms == s.ms;
    assert more[if s.ms <= p.ms then j else |pings|].ms == Min(s.ms, p.ms);
  }

  lemma {:induction false} StartsMore(pings: seq<Ping>, p: Ping)
    ensures var before := Starts(pings);
            Starts(pings + [p]) ==
              if |before| < 3 || p.time >= pings[before[|before| - 1]].time + 100_000 then before + [|pings|] else before
  {
    assert (pings + [p])[..|pings|] == pings;
  }

  lemma {:induction false} SampledMore(samples: seq<Ping>, valid: int, allow: int, pings: seq<Ping>, p: Ping)
    requires |samples| == 3 && Sampled(samples, valid, allow, pings)
    ensures Sampled(SamplesAfter(samples, valid, allow, p.ms, p.time), Min(valid + 1, 3),
                    if valid == 3 && p.time < allow then allow else if valid < 2 then 0 else p.time + 100_000, pings + [p])
  {
    hide Starts, AreSamples;
    var starts := Starts(pings);
    StartsMore(pings, p);
    if valid == 3 && p.time < allow {
      Merged(samples, pings, p, starts);
    } else {
      Shifted(samples, valid, pings, p, starts);
    }
  }

  lemma {:induction false} Merged(samples: seq<Ping>, pings: seq<Ping>, p: Ping, starts: seq<nat>)
    requires |samples| == 3 && |starts| >= 3 && AreSamples(samples, 3, pings, starts)
    ensures AreSamples([Ping(Min(samples[0].ms, p.ms), p.time), samples[1], samples[2]], 3, pings + [p], starts)
  {
    hide IsSample;
    SampleGrows(samples[0], pings, p, starts[|starts| - 1]);
    SampleStays(samples[1], pings, p, starts[|starts| - 2], EndOf(starts, |pings|, 1));
    SampleStays(samples[2], pings, p, starts[|starts| - 3], EndOf(starts, |pings|, 2));
  }

  lemma {:induction false} Shifted(samples: seq<Ping>, valid: int, pings: seq<Ping>, p: Ping, starts: seq<nat>)
    requires |samples| == 3 && 0 <= valid <= |starts| && valid <= 3 && AreSamples(samples, valid, pings, starts)
    ensures AreSamples([p, samples[0], samples[1]], Min(valid + 1, 3), pings + [p], starts + [|pings|])
  {
    hide IsSample;
    var s, after := [p, samples[0], samples[1]], starts + [|pings|];
    SampleBegins(pings, p);
    forall i | 1 <= i < Min(valid + 1, 3)
      ensures IsSample(s[i], pings + [p], after[|after| - 1 - i], EndOf(after, |pings| + 1, i))
    {
      SampleStays(samples[i - 1], pings, p, starts[|starts| - i], EndOf(starts, |pings|, i - 1));
    }
  }

  lemma {:induction false} SampleBegins(pings: seq<Ping>, p: Ping)
    ensures IsSample(p, pings + [p], |pings|, |pings| + 1)
  {
    assert (pings + [p])[|pings|].ms == p.ms;
  }

  /** Pings that all come at least the spacing after the one before. */
  ghost predicate Apart(pings: seq<Ping>)
  {
    forall i :: 0 < i < |pings| ==> pings[i].time >= pings[i - 1].time + 100_000
  }

  /** When pings are the spacing apart, the samples are the last three pings, newest first. */
  lemma {:induction false} ApartIsLastThree(samples: seq<Ping>, valid: int, allow: int, pings: seq<Ping>, i: int)
    requires |samples| == 3 && Sampled(samples, valid, allow, pings) && Apart(pings) && 0 <= i < 3 && i < |pings|
    ensures i < valid && samples[i] == pings[|pings| - 1 - i]
  {
    AllStart(pings);
    var starts := Starts(pings);
    assert starts[|pings| - 1 - i] == |pings| - 1 - i;
    assert IsSample(samples[i], pings, starts[|starts| - 1 - i], EndOf(starts, |pings|, i));
  }

  lemma {:induction false} AllStart(pings: seq<Ping>)
    requires Apart(pings)
    ensures |Starts(pings)| == |pings| && forall k :: 0 <= k < |pings| ==> Starts(pings)[k] == k
    decreases |pings|
  {
    if pings != [] {
      AllStart(pings[..|pings| - 1]);
    }
  }

  /** The valid samples are pings that were really received. */
  ghost predicate AllReal(samples: seq<Ping>, valid: int, pings: seq<Ping>)
    requires |samples| == 3 && valid <= 3
  {
    forall i :: 0 <= i < valid ==> Received(pings, samples[i].ms)
  }

  lemma {:induction false} SampledIsReal(samples: seq<Ping>, valid: int, allow: int, pings: seq<Ping>)
    requires |samples| == 3 && Sampled(samples, valid, allow, pings)
    ensures AllReal(samples, valid, pings) && valid == Min(|pings|, 3)
  {
    hide Starts;
    var starts := Starts(pings);
    forall i | 0 <= i < valid
      ensures Received(pings, samples[i].ms)
    {
      var a, b := starts[|starts| - 1 - i], EndOf(starts, |pings|, i);
      assert IsSample(samples[i], pings, a, b);
      var j :| a <= j < b && pings[j].ms == samples[i].ms;
      assert pings[j] in pings;
    }
  }

  ghost predicate Received(pings: seq<Ping>, ms: int)
  {
    exists p :: p in pings && p.ms == ms
  }

  class PingTrackerBuckets {
    const n: nat
    const width: int
    const samples: array<Ping>
    var validPings: int
    var smoothedPing: int
    var timeAllowNewSample: int
    const buckets: array<TimeBucket>
    var current: nat
    var totalPingsReceived: int
    var pingOverride: int

    /** The pings received, how many buckets were used so far, and whether an override ever
        changed what was measured. */
    ghost var pings: seq<Ping>
    ghost var used: nat
    ghost var tampered: bool

    ghost predicate Shape()
      reads this
    {
      && 0 < n && buckets.Length == n && samples.Length == 3 && samples as object != buckets as object
      && 0 < width && Span(n - 1, width) < CLOCK_START
      && current < n && used <= n && 0 <= validPings <= 3
      && (pingOverride > OVERRIDE_NONE ==> tampered)
    }

    ghost predicate Measured()
      requires Shape()
      reads this, samples, buckets
    {
      && Faithful(buckets[..], current, used, width, pings)
      && smoothedPing == SmoothedOf(samples[..], validPings)
      && Sampled(samples[..], validPings, timeAllowNewSample, pings)
    }

    ghost predicate Valid()
      reads this, samples, buckets
    {
      && Shape()
      && (!tampered ==> Measured())
      && totalPingsReceived == |pings| && validPings <= |pings|
      && (forall p :: p in pings ==> p.ms >= 0 && p.time >= CLOCK_START)
    }

    constructor (n: nat, width: int)
      requires 0 < n && 0 < width && Span(n - 1, width) < CLOCK_START
      ensures Valid() && pings == [] && !tampered && this.n == n && this.width == width
    {
      this.n, this.width := n, width;
      samples := new Ping[3](_ => Ping(0, 0));
      buckets := new TimeBucket[n](_ => EmptyBucket());
      validPings, smoothedPing, timeAllowNewSample := 0, -1, 0;
      current, totalPingsReceived, pingOverride := 0, 0, OVERRIDE_NONE;
      pings, used, tampered := [], 0, false;
      new;
      assert Starts([]) == [];
    }

    /** Updates the three samples and the smoothed value. */
    method ReceivedSample(ms: int, usecNow: int)
      requires Shape() && ms >= 0
      modifies `validPings, `smoothedPing, `timeAllowNewSample, samples
      ensures validPings == Min(old(validPings) + 1, 3)
      // a full set of samples, and too early for another: the newest becomes the minimum
      ensures old(validPings) == 3 && usecNow < old(timeAllowNewSample) ==>
                && samples[..] == [Ping(Min(old(samples[0].ms), ms), usecNow), old(samples[1]), old(samples[2])]
                && timeAllowNewSample == old(timeAllowNewSample)
      // otherwise the oldest is discarded
      ensures !(old(validPings) == 3 && usecNow < old(timeAllowNewSample)) ==>
                && samples[..] == [Ping(ms, usecNow), old(samples[0]), old(samples[1])]
                && timeAllowNewSample == if old(validPings) < 2 then 0 else usecNow + 100_000
      ensures old(validPings) < 3 || ms < old(samples[0].ms) || usecNow >= old(timeAllowNewSample) ==>
                smoothedPing == SmoothedOf(samples[..], validPings)
      ensures old(validPings) == 3 && ms >= old(samples[0].ms) && usecNow < old(timeAllowNewSample) ==>
                smoothedPing == old(smoothedPing)
    {
      if usecNow < timeAllowNewSample && validPings >= 3 {
        if ms >= samples[0].ms {
          // Keep the minimum of samples that are close together.
          samples[0] := Ping(samples[0].ms, usecNow);
          return;
        }
      } else {
        samples[2] := samples[1];
        samples[1] := samples[0];
        timeAllowNewSample := usecNow + MIN_SAMPLE_SPACING;
      }
      samples[0] := Ping(ms, usecNow);
      if validPings == 0 {
        validPings := 1;
        smoothedPing := ms;
        timeAllowNewSample := 0;
      } else if validPings == 1 {
        validPings := 2;
        smoothedPing := Min(samples[0].ms, samples[1].ms);
        timeAllowNewSample := 0;
      } else {
        validPings := 3;
        var max := Max(samples[0].ms, samples[1].ms);
        max := Max(max, samples[2].ms);
        smoothedPing := (samples[0].ms + samples[1].ms + samples[2].ms - max) / 2;
      }
    }

    /** Puts a ping into the bucket of its time, starting a new one if the current has ended. */
    method ReceivedInBucket(ms: int, usecNow: int)
      requires Shape() && usecNow >= CLOCK_START
      requires pings != [] ==> pings[|pings| - 1].time <= usecNow
      requires !tampered ==> Faithful(buckets[..], current, used, width, pings)
      modifies `current, `pings, `used, buckets
      ensures Shape() && pings == old(pings) + [Ping(ms, usecNow)]
      ensures !tampered ==> Faithful(buckets[..], current, used, width, pings)
      ensures var last := old(buckets[current]);
              if last.end > usecNow then
                && current == old(current)
                && buckets[..] == old(buckets[..])[current :=
                     TimeBucket(last.end, last.count + 1, Min(last.min, ms), Max(last.max, ms))]
              else
                && current == (if old(current) == n - 1 then 0 else old(current) + 1)
                && buckets[..] == old(buckets[..])[current :=
                     TimeBucket(if last.end + width / 2 >= usecNow then last.end + width else usecNow + width, 1, ms, ms)]
    {
      hide Faithful, Span;
      ghost var p, was := Ping(ms, usecNow), buckets[..];
      var end := buckets[current].end;
      if end > usecNow {
        if !tampered {
          UsedIfEnded(was, current, used, width, pings);
          AddToCurrent(was, current, used, width, pings, p);
        }
        var b := buckets[current];
        buckets[current] := TimeBucket(b.end, b.count + 1, Min(b.min, ms), Max(b.max, ms));
        assert buckets[..] == was[current := WithPing(was[current], ms)];
      } else {
        if !tampered {
          StartBucket(was, current, used, width, pings, p);
        }
        current := current + 1;
        if current >= n {
          current := 0;
        }
        var newEnd;
        if end + width / 2 >= usecNow {
          newEnd := end + width;
        } else {
          newEnd := usecNow + width;
        }
        buckets[current] := TimeBucket(newEnd, 1, ms, ms);
        used := Min(used + 1, n);
        assert buckets[..] == was[current := TimeBucket(newEnd, 1, ms, ms)];
      }
      pings := pings + [p];
    }

    /** A ping measurement arrives, which an override may replace or suppress. */
    method ReceivedPing(ms: int, usecNow: int)
      requires Valid() && ms >= 0 && usecNow >= CLOCK_START
      requires pings != [] ==> pings[|pings| - 1].time <= usecNow
      modifies `validPings, `smoothedPing, `timeAllowNewSample, `current, `totalPingsReceived, `pings, `used
      modifies samples, buckets
      ensures Valid()
      ensures pings == if pingOverride == -1 then old(pings)
                       else old(pings) + [Ping(if pingOverride > OVERRIDE_NONE then pingOverride else ms, usecNow)]
      // with at least the spacing between pings, the samples are the last three
      ensures !tampered && Apart(pings) ==>
                && (forall i :: 0 <= i < 3 && i < |pings| ==> samples[..][i] == pings[|pings| - 1 - i])
                && (|pings| == 1 ==> smoothedPing == pings[0].ms)
                && (|pings| == 2 ==> smoothedPing == Min(pings[0].ms, pings[1].ms))
                && (|pings| >= 3 ==> var a, b, c := pings[|pings| - 1].ms, pings[|pings| - 2].ms, pings[|pings| - 3].ms;
                     smoothedPing == (a + b + c - Max(a, Max(b, c))) / 2)
    {
      hide Faithful, Span, SmoothedOf, Sampled, Apart;
      var value := ms;
      if pingOverride > OVERRIDE_NONE {
        if pingOverride == -1 {
          return;
        }
        value := pingOverride;
      }
      ghost var before, had, valid, allow := samples[..], pings, validPings, timeAllowNewSample;
      ReceivedSample(value, usecNow);
      totalPingsReceived := totalPingsReceived + 1;
      ReceivedInBucket(value, usecNow);
      if !tampered {
        SampledMore(before, valid, allow, had, Ping(value, usecNow));
        assert samples[..] == SamplesAfter(before, valid, allow, value, usecNow);
        SmoothedStays(before, valid, Ping(value, usecNow));
        SampledIsReal(samples[..], validPings, timeAllowNewSample, pings);
        if Apart(pings) {
          SamplesTell(samples[..], validPings, timeAllowNewSample, pings);
        }
      }
    }

    /** Fakes a ping time for debugging. */
    method SetPingOverride(ms: int)
      requires Valid()
      modifies `pingOverride, `validPings, `smoothedPing, `tampered, samples, buckets
      ensures Valid() && pingOverride == ms
      ensures tampered == (old(tampered) || ms > OVERRIDE_NONE)
      ensures ms >= 0 ==> smoothedPing == ms && buckets[current].min == ms == buckets[current].max
      ensures ms >= 0 ==> forall i :: 0 <= i < validPings ==> samples[i].ms == ms
      ensures ms == -1 ==> smoothedPing == -1 && validPings == 0
      ensures buckets[..] == if ms < 0 then old(buckets[..])
                             else old(buckets[..])[current := old(buckets[current]).(min := ms, max := ms)]
      ensures forall i :: 0 <= i < 3 ==> samples[i].time == old(samples[i].time)
      ensures ms <= -2 ==> samples[..] == old(samples[..]) && validPings == old(validPings) && smoothedPing == old(smoothedPing)
    {
      hide Faithful, Span;
      pingOverride := ms;
      if pingOverride <= OVERRIDE_NONE {
        return;
      }
      tampered := true;
      if pingOverride < 0 {
        validPings := 0;
        smoothedPing := -1;
        return;
      }
      smoothedPing := ms;
      for i := 0 to validPings
        modifies samples
        invariant forall j :: 0 <= j < i ==> samples[j].ms == ms
        invariant forall j :: 0 <= j < 3 ==> samples[j].time == old(samples[j].time)
      {
        samples[i] := Ping(ms, samples[i].time);
      }
      buckets[current] := buckets[current].(min := ms, max := ms);
    }

    /** The range of pings over the recent buckets, and how many buckets it is based on. */
    method GetPingRangeFromRecentBuckets(usecNow: int) returns (min: int, max: int, valid: int)
      requires Valid() && !tampered && usecNow >= CLOCK_START
      requires pings != [] ==> pings[|pings| - 1].time <= usecNow
      // every ping of the last n - 1 widths is in the range
      ensures forall p :: p in pings && usecNow - Span(n - 1, width) <= p.time ==> min <= p.ms <= max
      // each end of the range is the smoothed ping, or a ping of the last n widths
      ensures min == smoothedPing || ReceivedSince(pings, min, usecNow - Span(n, width))
      ensures max == smoothedPing || ReceivedSince(pings, max, usecNow - Span(n, width))
      ensures min <= smoothedPing <= max
      ensures valid == RecentBuckets(buckets[..], n, width, usecNow)
      ensures pings == [] ==> min == max == -1 && valid == 0
    {
      hide Faithful, Span, SmoothedOf, Recent, Sampled;
      ghost var all := buckets[..];
      SmoothedSign(samples[..], validPings, timeAllowNewSample, pings);
      if pings == [] {
        NoneRecent(all, current, used, n, width, usecNow);
      }
      min, max, valid := smoothedPing, smoothedPing, 0;
      if smoothedPing >= 0 {
        min, max, valid := ScanBuckets(usecNow);
        AllInRange(all, current, used, n, width, pings, usecNow, min, max);
      }
    }

    /** Widens the range around the smoothed ping by the buckets that count. */
    method ScanBuckets(usecNow: int) returns (min: int, max: int, valid: int)
      requires Shape() && usecNow >= CLOCK_START
      requires Faithful(buckets[..], current, used, width, pings)
      requires forall p :: p in pings ==> p.ms >= 0
      ensures min <= smoothedPing <= max
      ensures forall k :: 0 <= k < n && Recent(buckets[k], n, width, usecNow) ==> min <= buckets[k].min && buckets[k].max <= max
      ensures min == smoothedPing || ReceivedSince(pings, min, usecNow - Span(n, width))
      ensures max == smoothedPing || ReceivedSince(pings, max, usecNow - Span(n, width))
      ensures valid == RecentBuckets(buckets[..], n, width, usecNow)
    {
      hide Faithful, Span, Recent;
      ghost var all := buckets[..];
      min, max, valid := smoothedPing, smoothedPing, 0;
      var threshold := usecNow - Span(n - 1, width);
      for i := 0 to n
        invariant min <= smoothedPing <= max
        invariant forall k :: 0 <= k < i && Recent(buckets[k], n, width, usecNow) ==> min <= buckets[k].min && buckets[k].max <= max
        invariant min == smoothedPing || ReceivedSince(pings, min, usecNow - Span(n, width))
        invariant max == smoothedPing || ReceivedSince(pings, max, usecNow - Span(n, width))
        invariant valid == RecentBuckets(all[..i], n, width, usecNow)
      {
        assert all[..i + 1][..i] == all[..i];
        RecentMeans(buckets[i], n, width, usecNow);
        if buckets[i].end >= threshold {
          RecentBucketIsReal(all, current, used, width, pings, i, usecNow);
          assert buckets[i].count > 0 && 0 <= buckets[i].min <= buckets[i].max;
          valid := valid + 1;
          min := Min(min, buckets[i].min);
          max := Max(max, buckets[i].max);
        }
      }
      assert all[..n] == all;
    }
  }

  /** A sample that is not better than the one it is merged with changes nothing. */
  lemma {:induction false} SmoothedStays(samples: seq<Ping>, valid: int, p: Ping)
    requires |samples| == 3
    ensures valid == 3 && p.ms >= samples[0].ms ==>
              SmoothedOf([Ping(Min(samples[0].ms, p.ms), p.time), samples[1], samples[2]], 3) == SmoothedOf(samples, 3)
  {}

  lemma SmoothedIs(samples: seq<Ping>)
    requires |samples| == 3
    ensures var a, b, c := samples[0].ms, samples[1].ms, samples[2].ms;
            && SmoothedOf(samples, 0) == -1 && SmoothedOf(samples, 1) == a
            && SmoothedOf(samples, 2) == Min(b, a) && SmoothedOf(samples, 3) == (a + b + c - Max(a, Max(b, c))) / 2
  {}

  lemma {:induction false} SamplesTell(samples: seq<Ping>, valid: int, allow: int, pings: seq<Ping>)
    requires |samples| == 3 && Sampled(samples, valid, allow, pings) && Apart(pings)
    ensures forall i :: 0 <= i < 3 && i < |pings| ==> samples[i] == pings[|pings| - 1 - i]
    ensures var n, smoothed := |pings|, SmoothedOf(samples, valid);
            && (n == 1 ==> smoothed == pings[0].ms)
            && (n == 2 ==> smoothed == Min(pings[0].ms, pings[1].ms))
            && (n >= 3 ==> var a, b, c := pings[n - 1].ms, pings[n - 2].ms, pings[n - 3].ms;
                 smoothed == (a + b + c - Max(a, Max(b, c))) / 2)
  {
    SampledIsReal(samples, valid, allow, pings);
    SmoothedIs(samples);
    hide Sampled, Apart, SmoothedOf;
    forall i | 0 <= i < 3 && i < |pings|
      ensures samples[i] == pings[|pings| - 1 - i]
    {
      ApartIsLastThree(samples, valid, allow, pings, i);
    }
  }

  ghost predicate ReceivedSince(pings: seq<Ping>, ms: int, since: int)
  {
    exists p :: p in pings && p.ms == ms && p.time >= since
  }

  /** How many buckets count. */
  function RecentBuckets(buckets: seq<TimeBucket>, n: int, width: int, now: int): int
  {
    if buckets == [] then 0
    else
      RecentBuckets(buckets[..|buckets| - 1], n, width, now) +
      (if Recent(buckets[|buckets| - 1], n, width, now) then 1 else 0)
  }

  lemma {:induction false} RecentAre(buckets: seq<TimeBucket>, n: int, width: int, now: int)
    ensures RecentBuckets(buckets, n, width, now) == |set k: int | 0 <= k < |buckets| && buckets[k].end >= now - (n - 1) * width|
    decreases |buckets|
  {
    var threshold := now - (n - 1) * width;
    var counted := set k: int | 0 <= k < |buckets| && buckets[k].end >= threshold;
    if buckets == [] {
      assert counted == {};
    } else {
      var last := |buckets| - 1;
      var before := set k: int | 0 <= k < last && buckets[..last][k].end >= threshold;
      RecentAre(buckets[..last], n, width, now);
      RecentMeans(buckets[last], n, width, now);
      assert counted == if buckets[last].end >= threshold then before + {last} else before;
    }
  }

  lemma {:induction false} RecentMeans(b: TimeBucket, n: int, width: int, now: int)
    ensures Recent(b, n, width, now) <==> b.end >= now - Span(n - 1, width)
  {
    hide Span;
  }

  lemma {:induction false} NoneRecent(buckets: seq<TimeBucket>, current: nat, used: nat, n: int, width: int, now: int)
    requires current < |buckets| && used <= |buckets| && Faithful(buckets, current, used, width, [])
    requires now > Span(n - 1, width)
    ensures RecentBuckets(buckets, n, width, now) == 0
  {
    forall i | 0 <= i < |buckets|
      ensures buckets[i].end == 0
    {
      var age := if i <= current then current - i else current - i + |buckets|;
      assert Slot(current, age, |buckets|) == i;
    }
    NoneRecentIn(buckets, n, width, now);
  }

  lemma {:induction false} NoneRecentIn(buckets: seq<TimeBucket>, n: int, width: int, now: int)
    requires now > Span(n - 1, width) && forall i :: 0 <= i < |buckets| ==> buckets[i].end == 0
    ensures RecentBuckets(buckets, n, width, now) == 0
  {
    if buckets != [] {
      NoneRecentIn(buckets[..|buckets| - 1], n, width, now);
    }
  }

  /** A range that holds every bucket that counts holds every recent ping. */
  lemma {:induction false} AllInRange(buckets: seq<TimeBucket>, current: nat, used: nat, n: nat, width: int,
                                      pings: seq<Ping>, now: int, min: int, max: int)
    requires |buckets| == n && current < n && used <= n && width > 0
    requires Faithful(buckets, current, used, width, pings) && pings != [] && pings[|pings| - 1].time <= now
    requires forall k :: 0 <= k < n && Recent(buckets[k], n, width, now) ==> min <= buckets[k].min && buckets[k].max <= max
    ensures forall p :: p in pings && now - Span(n - 1, width) <= p.time ==> min <= p.ms <= max
  {
    hide Faithful, Span, Recent;
    forall p | p in pings && now - Span(n - 1, width) <= p.time
      ensures min <= p.ms <= max
    {
      var k := RecentPingCounts(buckets, current, used, width, pings, p, now);
    }
  }

  /** Without pings the smoothed value is -1; otherwise it is a measurement. */
  lemma {:induction false} SmoothedSign(samples: seq<Ping>, valid: int, allow: int, pings: seq<Ping>)
    requires |samples| == 3 && 0 <= valid <= 3 && Sampled(samples, valid, allow, pings)
    requires forall p :: p in pings ==> p.ms >= 0
    ensures pings == [] ==> SmoothedOf(samples, valid) == -1
    ensures pings != [] ==> SmoothedOf(samples, valid) >= 0
  {
    hide Sampled;
    SampledIsReal(samples, valid, allow, pings);
    if pings != [] {
      SmoothedIsPositive(samples, valid, pings);
    }
  }

  /** The smoothed ping lies within the pings that were received. */
  lemma {:induction false} SmoothedIsPositive(samples: seq<Ping>, valid: int, pings: seq<Ping>)
    requires |samples| == 3 && 0 < valid <= 3 && AllReal(samples, valid, pings)
    requires forall p :: p in pings ==> p.ms >= 0
    ensures SmoothedOf(samples, valid) >= 0
  {
    assert forall i :: 0 <= i < valid ==> samples[i].ms >= 0;
    if valid == 3 {
      SmoothedIgnoresSpike(samples[0].ms, samples[1].ms, samples[2].ms);
    }
  }

  lemma {:induction false} UsedIfEnded(buckets: seq<TimeBucket>, current: nat, used: nat, width: int, pings: seq<Ping>)
    requires current < |buckets| && used <= |buckets| && Faithful(buckets, current, used, width, pings)
    requires buckets[current].end > 0
    ensures pings != [] && buckets[current].count > 0
  {
    assert Slot(current, 0, |buckets|) == current;
  }
}
