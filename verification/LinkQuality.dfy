/** Quality samples and their histogram, taken at the end of each interval. */
module LinkQuality {
  import opened LinkStats
  import opened PacketHistory

  const BUCKET_100 := 0
  const BUCKET_99 := 1
  const BUCKET_97 := 2
  const BUCKET_95 := 3
  const BUCKET_90 := 4
  const BUCKET_75 := 5
  const BUCKET_50 := 6
  const BUCKET_1 := 7
  const BUCKET_DEAD := 8
  const BUCKETS := 9

  /** The bucket that stands for a recorded quality. */
  function BucketOf(q: int): int
  {
    if q == 100 then BUCKET_100
    else if q == 99 then BUCKET_99
    else if q >= 97 then BUCKET_97
    else if q >= 95 then BUCKET_95
    else if q >= 90 then BUCKET_90
    else if q >= 75 then BUCKET_75
    else if q >= 50 then BUCKET_50
    else if q >= 1 then BUCKET_1
    else BUCKET_DEAD
  }

  /** How many recorded qualities fall into a bucket. */
  function Count(samples: seq<int>, bucket: int): int
  {
    if samples == [] then 0
    else Count(samples[..|samples| - 1], bucket) + (if BucketOf(samples[|samples| - 1]) == bucket then 1 else 0)
  }

  function Total(h: seq<int>): int
  {
    if h == [] then 0 else Total(h[..|h| - 1]) + h[|h| - 1]
  }

  /** Share of good packets in percent, rounded down. */
  function RawQuality(recv: int, dropped: int, weird: int): int
    requires 0 <= weird <= recv && 0 <= dropped && 0 < recv + dropped
  {
    (recv - weird) * 100 / (recv + dropped)
  }

  /** Any dropped or weird packet keeps the quality below 100, and none gives exactly 100. */
  lemma {:induction false} RawQualityRange(recv: int, dropped: int, weird: int)
    requires 0 <= weird <= recv && 0 <= dropped && 0 < recv + dropped
    ensures 0 <= RawQuality(recv, dropped, weird) <= 100
    ensures RawQuality(recv, dropped, weird) == 100 <==> dropped + weird == 0
  {
    var good, sent := (recv - weird) * 100, recv + dropped;
    assert good == RawQuality(recv, dropped, weird) * sent + good % sent;
    if dropped + weird > 0 {
      QuotientBelow(good, sent, 100);
    } else {
      QuotientExact(good, 100, sent);
    }
  }

  lemma {:induction false} QuotientBelow(n: int, d: int, q: int)
    requires 0 <= n < q * d && 0 < d
    ensures 0 <= n / d < q
  {
    assert n == n / d * d + n % d;
    if n / d >= q {
      MulGrows(n / d, q, d);
    }
  }

  lemma {:induction false} MulGrows(a: int, b: int, d: int)
    requires a >= b && 0 < d
    ensures a * d >= b * d
  {}

  lemma {:induction false} QuotientExact(n: int, q: int, d: int)
    requires 0 < d && n == q * d
    ensures n / d == q
  {
    var p := n / d;
    assert n == p * d + n % d;
    if p > q {
      MulGrows(p, q + 1, d);
    } else if p < q {
      MulGrows(q, p + 1, d);
    }
  }

  /** What is recorded for an interval with enough packets. */
  function Recorded(recv: int, dropped: int, weird: int): int
    requires 0 <= weird <= recv && 0 <= dropped && 0 < recv
  {
    if dropped + weird == 0 then 100
    else
      var q := RawQuality(recv, dropped, weird);
      if q >= 99 then 99 else if q <= 1 then 1 else q
  }

  /** The record is the share of good packets in percent, rounded down, but 99 at most when a packet
      was bad, and 1 at least. */
  lemma {:induction false} RecordedIs(recv: int, dropped: int, weird: int)
    requires 0 <= weird <= recv && 0 <= dropped && 0 < recv
    ensures var q, good, sent := Recorded(recv, dropped, weird), 100 * (recv - weird), recv + dropped;
            && (q == 100 <==> dropped == 0 && weird == 0)
            && (q == 99 <==> 99 * sent <= good && !(dropped == 0 && weird == 0))
            && (q == 1 <==> good < 2 * sent)
            && (1 < q < 99 ==> q * sent <= good < (q + 1) * sent)
            && 1 <= q <= 100
  {
    var good, sent := (recv - weird) * 100, recv + dropped;
    RawQualityRange(recv, dropped, weird);
    var raw := RawQuality(recv, dropped, weird);
    assert good == raw * sent + good % sent;
    QuotientIs(good, sent, raw);
  }

  lemma {:induction false} QuotientIs(n: int, d: int, q: int)
    requires 0 < d && n == q * d + n % d
    ensures q * d <= n < (q + 1) * d
    ensures n >= 99 * d <==> q >= 99
    ensures n < 2 * d <==> q <= 1
  {
    if q >= 99 {
      MulGrows(q, 99, d);
    } else {
      MulGrows(99, q + 1, d);
    }
    if q <= 1 {
      MulGrows(2, q + 1, d);
    } else {
      MulGrows(q, 2, d);
    }
  }

  /** The buckets: 100, 99, 97 to 98, 95 to 96, 90 to 94, 75 to 89, 50 to 74, 1 to 49, and dead. */
  lemma BucketsAre(q: int)
    ensures (BucketOf(q) == 0 <==> q == 100) && (BucketOf(q) == 1 <==> q == 99)
    ensures BucketOf(q) == 2 <==> q >= 97 && q != 99 && q != 100
    ensures (BucketOf(q) == 3 <==> 95 <= q <= 96) && (BucketOf(q) == 4 <==> 90 <= q <= 94)
    ensures (BucketOf(q) == 5 <==> 75 <= q <= 89) && (BucketOf(q) == 6 <==> 50 <= q <= 74)
    ensures (BucketOf(q) == 7 <==> 1 <= q <= 49) && (BucketOf(q) == 8 <==> q <= 0)
  {}

  /** Another dropped packet never improves the record. */
  lemma {:induction false} DropsNeverHelp(recv: int, dropped: int, weird: int)
    requires 0 <= weird <= recv && 0 <= dropped && 0 < recv
    ensures Recorded(recv, dropped + 1, weird) <= Recorded(recv, dropped, weird)
    ensures 1 <= Recorded(recv, dropped, weird) <= 100
    ensures Recorded(recv, dropped, weird) == 100 <==> dropped + weird == 0
  {
    RawQualityRange(recv, dropped, weird);
    RawQualityRange(recv, dropped + 1, weird);
    QuotientAntitone((recv - weird) * 100, recv + dropped);
  }

  lemma {:induction false} QuotientAntitone(n: int, d: int)
    requires 0 <= n && 0 < d
    ensures n / (d + 1) <= n / d
  {
    var a, b := n / (d + 1), n / d;
    assert n == a * (d + 1) + n % (d + 1);
    assert n == b * d + n % d;
    if a > b {
      MulGrows(a, b + 1, d);
    }
  }

  class QualityStats {
    var samples: seq<int>
    const histogram: array<int>
    var droppedPct: real
    var weirdPct: real

    ghost predicate Valid()
      reads this, histogram
    {
      && histogram.Length == BUCKETS
      && (forall b :: 0 <= b < BUCKETS ==> histogram[b] == Count(samples, b))
    }

    constructor ()
      ensures Valid() && fresh(histogram) && samples == []
    {
      samples := [];
      histogram := new int[BUCKETS](_ => 0);
      droppedPct, weirdPct := -1.0, -1.0;
    }

    method AddSample(q: int, bucket: int)
      requires Valid() && bucket == BucketOf(q)
      modifies `samples, histogram
      ensures Valid() && samples == old(samples) + [q]
    {
      samples := samples + [q];
      histogram[bucket] := histogram[bucket] + 1;
      assert samples[..|samples| - 1] == old(samples);
    }

    method RecordQuality(recv: int, dropped: int, weird: int)
      requires Valid() && 0 <= weird <= recv && 0 <= dropped && 5 < recv
      modifies `samples, histogram
      ensures Valid() && samples == old(samples) + [Recorded(recv, dropped, weird)]
    {
      RawQualityRange(recv, dropped, weird);
      if dropped + weird == 0 {
        AddSample(100, BUCKET_100);
      } else {
        var sent := recv + dropped;
        var good := recv - weird;
        var q := good * 100 / sent;
        if q >= 99 {
          AddSample(99, BUCKET_99);
        } else if q <= 1 {
          AddSample(1, BUCKET_1);
        } else if q >= 97 {
          AddSample(q, BUCKET_97);
        } else if q >= 95 {
          AddSample(q, BUCKET_95);
        } else if q >= 90 {
          AddSample(q, BUCKET_90);
        } else if q >= 75 {
          AddSample(q, BUCKET_75);
        } else if q >= 50 {
          AddSample(q, BUCKET_50);
        } else {
          AddSample(q, BUCKET_1);
        }
      }
    }

    /** Judges an interval of `usec` microseconds. The last three parameters count packets received
        and sent in it, sequenced or not, and reply timeouts since anything was received. */
    method SampleInterval(usec: int, recv: int, dropped: int, weird: int,
                          recvPackets: int, sentPackets: int, replyTimeouts: int)
      requires Valid() && 0 <= weird <= recv && 0 <= dropped
      modifies `samples, histogram
      ensures Valid()
      ensures samples == old(samples) +
                if usec <= 4_500_000 then []
                else if recv > 5 then [Recorded(recv, dropped, weird)]
                else if recvPackets == 0 && sentPackets > usec / 1_000_000 && replyTimeouts >= 2 then [0]
                else []
    {
      var elapsed := usec as real / 1_000_000.0;
      if elapsed < 0.001 {
        elapsed := 0.001;
      }
      if elapsed > 4.5 {
        FloorIsQuotient(usec);
        if recv > 5 {
          RecordQuality(recv, dropped, weird);
        } else if recvPackets == 0 && sentPackets > elapsed.Floor && replyTimeouts >= 2 {
          AddSample(0, BUCKET_DEAD);
        }
      }
    }

    method RecordPercentages(recv: int, dropped: int, weird: int)
      requires 0 <= weird <= recv && 0 <= dropped
      modifies `droppedPct, `weirdPct
      ensures recv == 0 ==> droppedPct == weirdPct == -1.0
      ensures recv > 0 ==>
                && droppedPct * (recv + dropped) as real == dropped as real
                && weirdPct * (recv + dropped) as real == weird as real
                && 0.0 <= droppedPct && 0.0 <= weirdPct && droppedPct + weirdPct <= 1.0
    {
      if recv <= 0 {
        droppedPct, weirdPct := -1.0, -1.0;
      } else {
        var toPct := 1.0 / (recv + dropped) as real;
        droppedPct := dropped as real * toPct;
        weirdPct := weird as real * toPct;
        PctInRange(recv, dropped, weird, toPct);
      }
    }

    /** Ends the interval of `t`. */
    method UpdateInterval(t: LinkStatsTracker, usecNow: int, recvPackets: int, sentPackets: int, replyTimeouts: int)
      requires Valid() && t.Valid() && histogram != t.pathRecvSeq && histogram != t.pathRecvLater
      modifies this, histogram
      modifies t`droppedAccumulator, t`outOfOrderAccumulator, t`outOfOrderCorrectedAccumulator
      modifies t`lurchAccumulator, t`duplicateAccumulator, t`intervalStart, t`history, t.counters
      ensures Valid() && t.Valid()
      ensures t.history == AfterInterval(old(t.history)) && t.intervalStart == usecNow
      ensures var tally := old(t.history).tally;
              var usec := usecNow - old(t.intervalStart);
              && tally.Weird() <= tally.recv
              && samples == old(samples) +
                   if usec <= 4_500_000 then []
                   else if tally.recv > 5 then [Recorded(tally.recv, tally.dropped, tally.Weird())]
                   else if recvPackets == 0 && sentPackets > usec / 1_000_000 && replyTimeouts >= 2 then [0]
                   else []
      ensures var tally := old(t.history).tally;
              if tally.recv == 0 then droppedPct == weirdPct == -1.0
              else
                && droppedPct * (tally.recv + tally.dropped) as real == tally.dropped as real
                && weirdPct * (tally.recv + tally.dropped) as real == tally.Weird() as real
                && 0.0 <= droppedPct && 0.0 <= weirdPct && droppedPct + weirdPct <= 1.0
    {
      hide Agrees, Block, Sound, Recorded, Count, AfterInterval;
      SoundCounts(t.history);
      var c := t.counters;
      var weird := c.Weird();
      assert weird <= c.recv;
      SampleInterval(usecNow - t.intervalStart, c.recv, c.dropped, weird, recvPackets, sentPackets, replyTimeouts);
      RecordPercentages(c.recv, c.dropped, weird);
      t.StartNextInterval(usecNow);
    }
  }

  lemma {:induction false} SoundCounts(h: History)
    requires Sound(h)
    ensures 0 <= h.tally.Weird() <= h.tally.recv && 0 <= h.tally.dropped
  {}

  lemma {:induction false} FloorIsQuotient(usec: int)
    requires usec >= 0
    ensures (usec as real / 1_000_000.0).Floor == usec / 1_000_000
  {
    var q, r := usec / 1_000_000, usec % 1_000_000;
    assert usec == q * 1_000_000 + r;
    assert usec as real / 1_000_000.0 == q as real + r as real / 1_000_000.0;
  }

  lemma {:induction false} PctInRange(recv: int, dropped: int, weird: int, toPct: real)
    requires 0 <= weird <= recv && 0 <= dropped && 0 < recv
    requires toPct == 1.0 / (recv + dropped) as real
    ensures dropped as real * toPct * (recv + dropped) as real == dropped as real
    ensures weird as real * toPct * (recv + dropped) as real == weird as real
    ensures 0.0 <= dropped as real * toPct && 0.0 <= weird as real * toPct
    ensures dropped as real * toPct + weird as real * toPct <= 1.0
  {
    assert (recv + dropped) as real * toPct == 1.0;
    assert dropped as real * toPct + weird as real * toPct == (dropped + weird) as real * toPct;
    assert (dropped + weird) as real * toPct <= (recv + dropped) as real * toPct;
  }

  /** No sample is lost: the histogram counts every sample exactly once. */
  lemma {:induction false} HistogramTotal(samples: seq<int>, h: seq<int>)
    requires |h| == BUCKETS && forall b :: 0 <= b < BUCKETS ==> h[b] == Count(samples, b)
    ensures Total(h) == |samples|
  {
    if samples == [] {
      TotalOf(h);
    } else {
      var shorter := samples[..|samples| - 1];
      var b := BucketOf(samples[|samples| - 1]);
      var g := h[b := h[b] - 1];
      HistogramTotal(shorter, g);
      TotalOf(g);
      TotalOf(h);
    }
  }

  lemma {:induction false} TotalOf(h: seq<int>)
    requires |h| == BUCKETS
    ensures Total(h) == h[0] + h[1] + h[2] + h[3] + h[4] + h[5] + h[6] + h[7] + h[8]
  {
    TotalSnoc(h[..8], h[8]);
    TotalSnoc(h[..7], h[7]);
    TotalSnoc(h[..6], h[6]);
    TotalSnoc(h[..5], h[5]);
    TotalSnoc(h[..4], h[4]);
    TotalSnoc(h[..3], h[3]);
    TotalSnoc(h[..2], h[2]);
    TotalSnoc(h[..1], h[1]);
    TotalSnoc(h[..0], h[0]);
    assert h == h[..8] + [h[8]] && h[..8] == h[..7] + [h[7]] && h[..7] == h[..6] + [h[6]];
    assert h[..6] == h[..5] + [h[5]] && h[..5] == h[..4] + [h[4]] && h[..4] == h[..3] + [h[3]];
    assert h[..3] == h[..2] + [h[2]] && h[..2] == h[..1] + [h[1]] && h[..1] == h[..0] + [h[0]];
  }

  lemma {:induction false} TotalSnoc(h: seq<int>, x: int)
    ensures Total(h + [x]) == Total(h) + x
  {
    assert (h + [x])[..|h|] == h;
  }
}
