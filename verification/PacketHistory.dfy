/** The reference behaviour of the sequenced-packet tracker, stated on sets of packet
    numbers instead of bitmasks. `LinkStatsTracker` is proved to refine it. */
module PacketHistory {

  /** Value of a number converted to a signed 16-bit integer. */
  function ToInt16(x: int): int
  {
    var low := x % 0x1_0000;
    if low < 0x8000 then low else low - 0x1_0000
  }

  /** The full packet number a 16-bit wire number stands for, next to `max`. */
  function Expand(max: int, wire: int): int
  {
    max + ToInt16(wire - max)
  }

  /** First packet number of the 64-packet block that holds `max`. */
  function Block(max: int): int
  {
    max - max % 64
  }

  /** The counters that the tracker keeps. Those of the current interval come first. */
  datatype Tally = Tally(
    recv: int, dropped: int, outOfOrder: int, lurch: int, duplicate: int,
    pastDropped: int, pastOutOfOrder: int, pastLurch: int, pastDuplicate: int,
    sequenced: int, seq0: int, seq1: int, later0: int, later1: int)
  {
    function Weird(): int { outOfOrder + lurch + duplicate }
    function Dropped(): int { pastDropped + dropped }
    function OutOfOrder(): int { pastOutOfOrder + outOfOrder }
    function Lurch(): int { pastLurch + lurch }
    function Duplicate(): int { pastDuplicate + duplicate }
  }

  function NoPackets(): Tally { Tally(0, 0, 0, 0, 0, 0, 0, 0, 0, 0, 0, 0, 0, 0) }

  /** What happened so far: the highest number, the numbers marked as received on each of
      the two paths, the counters, and how packets were judged. */
  datatype History = History(
    max: int, on0: iset<int>, on1: iset<int>, tally: Tally,
    accepted: int, tooOld: int, jumps: int)
  {
    ghost predicate Seen(n: int) { n in on0 || n in on1 }

    ghost function On(path: int): iset<int> { if path == 0 then on0 else on1 }

    ghost function Mark(path: int, n: int): (h: History)
      ensures forall x :: h.Seen(x) <==> Seen(x) || x == n
    {
      if path == 0 then this.(on0 := on0 + iset{n}) else this.(on1 := on1 + iset{n})
    }

    /** The packet numbers of the window that have not arrived. */
    ghost function Holes(): set<int>
    {
      set n | Block(max) - 64 <= n <= max && !Seen(n)
    }
  }

  predicate AtMost(n: int, max: int) { n <= max }

  ghost function UpTo(max: int): iset<int> { iset n | AtMost(n, max) }

  /** Everything up to `max` counts as received, on both paths. */
  ghost function Restart(h: History, max: int): (r: History)
    ensures forall x :: r.Seen(x) <==> x <= max
  {
    h.(max := max, on0 := UpTo(max), on1 := UpTo(max))
  }

  ghost function Start(max: int): (r: History)
    ensures forall x :: r.Seen(x) <==> x <= max
  {
    History(max, UpTo(max), UpTo(max), NoPackets(), 0, 0, 0)
  }

  datatype Verdict = Fresh | Duplicate | OtherPathFirst | TooOld

  ghost function Judge(h: History, n: int, path: int): Verdict
  {
    if n < Block(h.max) - 64 then TooOld
    else if !h.Seen(n) then Fresh
    else if n in h.On(path) then Duplicate
    else OtherPathFirst
  }

  ghost function Counted(h: History, path: int): History
  {
    var t := h.tally;
    h.(tally := t.(recv := t.recv + 1, sequenced := t.sequenced + 1,
                   seq0 := t.seq0 + (if path == 0 then 1 else 0),
                   seq1 := t.seq1 + (if path == 0 then 0 else 1)))
  }

  ghost function Late(h: History, n: int, path: int): (r: History)
    ensures r.max == h.max && r.accepted == h.accepted && r.tooOld == h.tooOld && r.jumps == h.jumps
  {
    var t := h.tally;
    h.Mark(path, n).(tally := t.(later0 := t.later0 + (if path == 0 then 1 else 0),
                                 later1 := t.later1 + (if path == 0 then 0 else 1)))
  }

  /** A packet with number `n` arrives and is judged, but not yet processed. */
  ghost function AfterCheck(h: History, n: int, path: int): History
  {
    var c := Counted(h, path);
    match Judge(h, n, path)
    case Fresh => c.(accepted := h.accepted + 1)
    case Duplicate => c.(tally := c.tally.(duplicate := h.tally.duplicate + 1))
    case OtherPathFirst => Late(c, n, path)
    case TooOld => c.(tally := c.tally.(lurch := h.tally.lurch + 1), tooOld := h.tooOld + 1)
  }

  /** A late packet is counted, and one drop is taken back if this interval has any. */
  ghost function OutOfOrder(h: History): History
  {
    var t := h.tally;
    h.(tally := t.(outOfOrder := t.outOfOrder + 1, dropped := if t.dropped > 0 then t.dropped - 1 else t.dropped))
  }

  /** The fresh packet `n` is processed. */
  ghost function AfterTrack(h: History, n: int, path: int): History
  {
    var t := h.tally;
    if n - h.max >= 100 then
      Restart(h, n).(tally := t.(lurch := t.lurch + 1), jumps := h.jumps + 1)
    else if n > h.max then
      h.Mark(path, n).(max := n, tally := t.(dropped := t.dropped + (n - h.max - 1)))
    else
      OutOfOrder(h.Mark(path, n))
  }

  ghost function AfterInterval(h: History): History
  {
    var t := h.tally;
    h.(tally := t.(recv := 0, dropped := 0, outOfOrder := 0, lurch := 0, duplicate := 0,
                   pastDropped := t.Dropped(), pastOutOfOrder := t.OutOfOrder(),
                   pastLurch := t.Lurch(), pastDuplicate := t.Duplicate()))
  }

  ghost function MaybeStart(h: History, wire: int, mayStart: bool): History
  {
    if mayStart && h.max == 0 then Restart(h, (wire - 1) % 0x1_0000) else h
  }

  // --- Runs -----------------------------------------------------------------------------

  /** A packet passes the authenticity check of its payload or not: only then is it tracked.
      `mayStart` tells whether the receiver lets its first packet choose the numbering. */
  datatype Event = Packet(wire: int, path: int, authentic: bool, mayStart: bool) | EndInterval

  ghost function Step(h: History, e: Event): History
  {
    match e
    case EndInterval => AfterInterval(h)
    case Packet(wire, path, authentic, mayStart) =>
      var s := MaybeStart(h, wire, mayStart);
      var n := Expand(s.max, wire);
      var c := AfterCheck(s, n, path);
      if Judge(s, n, path).Fresh? && authentic then AfterTrack(c, n, path) else c
  }

  /** The number that the event makes the receiver process, if any. */
  ghost function Processed(h: History, e: Event): seq<int>
  {
    match e
    case EndInterval => []
    case Packet(wire, path, authentic, mayStart) =>
      var s := MaybeStart(h, wire, mayStart);
      var n := Expand(s.max, wire);
      if Judge(s, n, path).Fresh? && authentic then [n] else []
  }

  ghost function Run(h: History, events: seq<Event>): History
    decreases |events|
  {
    if events == [] then h else Run(Step(h, events[0]), events[1..])
  }

  ghost function AllProcessed(h: History, events: seq<Event>): seq<int>
    decreases |events|
  {
    if events == [] then [] else Processed(h, events[0]) + AllProcessed(Step(h, events[0]), events[1..])
  }

  /** Nothing above the highest number is marked, and everything up to zero is. */
  ghost predicate Marked(h: History)
  {
    && h.max >= 0 && h.Seen(h.max)
    && (forall n :: h.Seen(n) ==> n <= h.max)
    && (forall n :: n <= 0 ==> h.Seen(n))
  }

  /** Every sequenced packet is accounted for exactly once. */
  ghost predicate Accounted(h: History)
  {
    var t := h.tally;
    && t.sequenced == t.seq0 + t.seq1
    && t.sequenced == h.accepted + t.Duplicate() + t.later0 + t.later1 + h.tooOld
    && t.Lurch() == h.tooOld + h.jumps
    && t.OutOfOrder() + h.jumps <= h.accepted
    && t.Weird() <= t.recv
    && 0 <= t.dropped && 0 <= t.pastDropped
    && 0 <= t.outOfOrder && 0 <= t.lurch && 0 <= t.duplicate
  }

  /** What every step keeps. The drop count covers the holes of the window. */
  ghost predicate Sound(h: History)
  {
    Marked(h) && Accounted(h) && |h.Holes()| <= h.tally.Dropped()
  }

  lemma {:induction false} StartIsSound(max: int)
    requires max >= 0
    ensures Sound(Start(max))
  {
    assert Start(max).Holes() == {};
  }

  lemma {:induction false} HolesShrink(h: History, g: History)
    requires h.max == g.max
    requires forall n :: h.Seen(n) ==> g.Seen(n)
    ensures |g.Holes()| <= |h.Holes()|
  {
    SubsetSize(g.Holes(), h.Holes());
  }

  lemma {:induction false} SubsetSize(a: set<int>, b: set<int>)
    requires a <= b
    ensures |a| <= |b|
  {
    if exists x :: x in a {
      var x :| x in a;
      SubsetSize(a - {x}, b - {x});
    }
  }

  ghost function Between(lo: int, hi: int): (r: set<int>)
    requires lo < hi
    ensures forall n :: n in r <==> lo < n < hi
    ensures |r| == hi - lo - 1
    decreases hi - lo
  {
    if lo + 1 == hi then {} else Between(lo, hi - 1) + {hi - 1}
  }

  /** Moving forward by less than 100 opens at most the skipped numbers as holes. */
  lemma {:induction false} HolesForward(h: History, n: int, path: int)
    requires n > h.max
    ensures |h.Mark(path, n).(max := n).Holes()| <= |h.Holes()| + n - h.max - 1
  {
    var g := h.Mark(path, n).(max := n);
    forall x | x in g.Holes()
      ensures x in h.Holes() + Between(h.max, n)
    {
      assert Block(h.max) <= Block(n);
    }
    SubsetSize(g.Holes(), h.Holes() + Between(h.max, n));
  }

  /** A late packet closes the hole it left. */
  lemma {:induction false} HolesBackward(h: History, n: int, path: int)
    requires n in h.Holes()
    ensures |h.Mark(path, n).Holes()| == |h.Holes()| - 1
  {
    assert h.Mark(path, n).Holes() == h.Holes() - {n};
  }

  /** A judged packet leaves room for one more anomaly. */
  ghost predicate Pending(h: History)
  {
    && Sound(h)
    && h.tally.OutOfOrder() + h.jumps < h.accepted
    && h.tally.Weird() < h.tally.recv
  }

  lemma {:induction false} CheckIsSound(h: History, n: int, path: int)
    requires Sound(h)
    ensures Sound(AfterCheck(h, n, path))
    ensures Judge(h, n, path).Fresh? ==> Pending(AfterCheck(h, n, path))
  {
    var g := AfterCheck(h, n, path);
    assert forall x :: g.Seen(x) <==> h.Seen(x);
    HolesShrink(h, g);
  }

  // --- What is accepted, and what is counted --------------------------------------------

  /** A packet is fresh exactly when its number was not received and is not below the block before
      the one of the maximum. */
  lemma {:induction false} FreshIff(h: History, n: int, path: int)
    requires h.max >= 0
    ensures Judge(h, n, path).Fresh? <==> !h.Seen(n) && n >= h.max - h.max % 64 - 64
  {}

  /** What a check leaves: one more packet on the path, and for a refused one exactly one of three
      counters. Nothing is marked, except that a packet which the other path delivered is now
      known from this path, too. */
  ghost predicate CheckCounts(h: History, n: int, path: int, g: History)
  {
    var old0 := n < h.max - h.max % 64 - 64;
    var dup := !old0 && n in (if path == 0 then h.on0 else h.on1);
    var other := !old0 && !dup && n in (if path == 0 then h.on1 else h.on0);
    var t, u := h.tally, g.tally;
    && g.max == h.max && g.jumps == h.jumps
    && u.recv == t.recv + 1 && u.sequenced == t.sequenced + 1
    && u.seq0 == t.seq0 + (if path == 0 then 1 else 0) && u.seq1 == t.seq1 + (if path == 0 then 0 else 1)
    && u.lurch == t.lurch + (if old0 then 1 else 0)
    && u.duplicate == t.duplicate + (if dup then 1 else 0)
    && u.later0 == t.later0 + (if other && path == 0 then 1 else 0)
    && u.later1 == t.later1 + (if other && path != 0 then 1 else 0)
    && u.dropped == t.dropped && u.outOfOrder == t.outOfOrder
    && u.pastDropped == t.pastDropped && u.pastOutOfOrder == t.pastOutOfOrder
    && u.pastLurch == t.pastLurch && u.pastDuplicate == t.pastDuplicate
    && (forall x :: x in g.on0 <==> x in h.on0 || (other && path == 0 && x == n))
    && (forall x :: x in g.on1 <==> x in h.on1 || (other && path != 0 && x == n))
  }

  lemma {:induction false} CheckCountsIt(h: History, n: int, path: int)
    requires h.max >= 0
    ensures CheckCounts(h, n, path, AfterCheck(h, n, path))
  {}

  /** What processing a fresh packet leaves: a jump of 100 or more restarts the numbering and counts
      as a lurch; a smaller gap counts the skipped numbers as dropped; a late packet counts as out of
      order and takes back one drop. */
  ghost predicate TrackCounts(h: History, n: int, path: int, g: History)
  {
    var gap, t, u := n - h.max, h.tally, g.tally;
    && g.max == (if gap > 0 then n else h.max)
    && g.accepted == h.accepted && g.tooOld == h.tooOld
    && u.lurch == t.lurch + (if gap >= 100 then 1 else 0)
    && u.outOfOrder == t.outOfOrder + (if gap < 0 then 1 else 0)
    && u.dropped == (if gap >= 100 then t.dropped else if gap > 0 then t.dropped + gap - 1
                     else if t.dropped > 0 then t.dropped - 1 else 0)
    && u.recv == t.recv && u.duplicate == t.duplicate && u.sequenced == t.sequenced
    && u.seq0 == t.seq0 && u.seq1 == t.seq1 && u.later0 == t.later0 && u.later1 == t.later1
    && u.pastDropped == t.pastDropped && u.pastOutOfOrder == t.pastOutOfOrder
    && u.pastLurch == t.pastLurch && u.pastDuplicate == t.pastDuplicate
    && (forall x :: x in g.on0 <==> if gap >= 100 then x <= n else x in h.on0 || (path == 0 && x == n))
    && (forall x :: x in g.on1 <==> if gap >= 100 then x <= n else x in h.on1 || (path != 0 && x == n))
  }

  lemma {:induction false} TrackCountsIt(h: History, n: int, path: int)
    requires Pending(h) && !h.Seen(n)
    ensures TrackCounts(h, n, path, AfterTrack(h, n, path))
  {}

  lemma {:induction false} TrackIsSound(h: History, n: int, path: int)
    requires Pending(h) && Judge(h, n, path).Fresh?
    ensures Sound(AfterTrack(h, n, path))
  {
    var g := AfterTrack(h, n, path);
    if n - h.max >= 100 {
      assert forall x :: g.Seen(x) <==> x <= n;
      assert g.Holes() == {};
    } else if n > h.max {
      var m := h.Mark(path, n);
      assert forall x :: g.Seen(x) <==> m.Seen(x);
      HolesForward(h, n, path);
      assert g.Holes() == m.(max := n).Holes();
    } else {
      var m := h.Mark(path, n);
      assert forall x :: g.Seen(x) <==> m.Seen(x);
      HolesBackward(h, n, path);
      assert g.Holes() == m.Holes();
    }
  }

  lemma {:induction false} IntervalIsSound(h: History)
    requires Sound(h)
    ensures Sound(AfterInterval(h))
  {
    var g := AfterInterval(h);
    assert forall x :: g.Seen(x) <==> h.Seen(x);
    HolesShrink(h, g);
  }

  lemma {:induction false} MaybeStartIsSound(h: History, wire: int, mayStart: bool)
    requires Sound(h)
    ensures Sound(MaybeStart(h, wire, mayStart))
    ensures forall n :: h.Seen(n) ==> MaybeStart(h, wire, mayStart).Seen(n)
  {
    var s := MaybeStart(h, wire, mayStart);
    if mayStart && h.max == 0 {
      assert forall x :: s.Seen(x) <==> x <= s.max;
      assert s.Holes() == {};
    }
  }

  /** One event keeps the invariant, forgets no packet, and processes at most one packet,
      which is positive, was not marked before and is marked afterwards. */
  lemma {:induction false} StepIsSound(h: History, e: Event)
    requires Sound(h)
    ensures Sound(Step(h, e))
    ensures forall n :: h.Seen(n) ==> Step(h, e).Seen(n)
    ensures forall n :: n in Processed(h, e) ==> 0 < n && !h.Seen(n) && Step(h, e).Seen(n)
    ensures |Processed(h, e)| <= 1
  {
    match e
    case EndInterval =>
      IntervalIsSound(h);
      assert forall x :: AfterInterval(h).Seen(x) <==> h.Seen(x);
    case Packet(wire, path, authentic, mayStart) =>
      var s := MaybeStart(h, wire, mayStart);
      MaybeStartIsSound(h, wire, mayStart);
      var n := Expand(s.max, wire);
      var c := AfterCheck(s, n, path);
      CheckIsSound(s, n, path);
      assert forall x :: s.Seen(x) <==> c.Seen(x);
      if Judge(s, n, path).Fresh? && authentic {
        assert Judge(c, n, path).Fresh?;
        TrackIsSound(c, n, path);
        TrackRemembers(c, n, path);
      }
  }

  lemma {:induction false} TrackRemembers(h: History, n: int, path: int)
    requires Marked(h)
    ensures forall x :: h.Seen(x) ==> AfterTrack(h, n, path).Seen(x)
    ensures AfterTrack(h, n, path).Seen(n)
  {
    var g := AfterTrack(h, n, path);
    if n - h.max >= 100 {
      assert forall x :: g.Seen(x) <==> x <= n;
    } else {
      var m := h.Mark(path, n);
      assert forall x :: g.Seen(x) <==> m.Seen(x);
    }
  }

  lemma {:induction false} RunIsSound(h: History, events: seq<Event>)
    requires Sound(h)
    ensures Sound(Run(h, events))
    decreases |events|
  {
    if events != [] {
      StepIsSound(h, events[0]);
      RunIsSound(Step(h, events[0]), events[1..]);
    }
  }

  ghost predicate Distinct(s: seq<int>)
  {
    forall i, j :: 0 <= i < j < |s| ==> s[i] != s[j]
  }

  /** Replay protection over whole runs: no packet number is ever processed twice, whatever
      the network repeats, reorders or invents, and across interval ends. */
  lemma {:induction false} NeverProcessedTwice(h: History, events: seq<Event>)
    requires Sound(h)
    ensures Distinct(AllProcessed(h, events))
    ensures forall n :: n in AllProcessed(h, events) ==> 0 < n && !h.Seen(n)
    decreases |events|
  {
    if events != [] {
      StepIsSound(h, events[0]);
      NeverProcessedTwice(Step(h, events[0]), events[1..]);
    }
  }

  /** A fresh packet below the highest number was counted as dropped before, so undoing a
      drop is always possible in total. */
  lemma {:induction false} LateMeansDropped(h: History, events: seq<Event>, n: int, path: int)
    requires Sound(h)
    ensures var g := Run(h, events);
            Judge(g, n, path).Fresh? && n < g.max ==> g.tally.Dropped() > 0
  {
    RunIsSound(h, events);
    var g := Run(h, events);
    if Judge(g, n, path).Fresh? && n < g.max {
      assert n in g.Holes();
    }
  }

  // --- Which packets of a run are processed ---------------------------------------------

  /** What a receiver remembers that keeps everything: where the numbering last started, and every
      number that it processed. It knows neither windows nor marks. */
  datatype Log = Log(base: int, processed: seq<int>)

  /** The highest number processed, or where the numbering started. */
  function Highest(l: Log): (max: int)
    ensures max >= l.base && forall n :: n in l.processed ==> n <= max
    ensures max == l.base || max in l.processed
    decreases |l.processed|
  {
    if l.processed == [] then l.base
    else
      var before := Highest(Log(l.base, l.processed[..|l.processed| - 1]));
      var last := l.processed[|l.processed| - 1];
      assert l.processed == l.processed[..|l.processed| - 1] + [last];
      if last > before then last else before
  }

  /** A number is acceptable unless it was processed, lies before the start of the numbering, or below
      the block before that of the highest number. */
  predicate Acceptable(l: Log, n: int)
  {
    n !in l.processed && n > l.base && n >= Highest(l) - Highest(l) % 64 - 64
  }

  /** The very first packet may choose the numbering. */
  function Started(l: Log, wire: int, mayStart: bool): Log
  {
    if mayStart && Highest(l) == 0 then Log((wire - 1) % 0x1_0000, l.processed) else l
  }

  /** The log after an event in which the number that the wire stands for is `n`. A number that is 100
      or more ahead starts the numbering again. */
  function LogAfter(l: Log, e: Event): Log
  {
    match e
    case EndInterval => l
    case Packet(wire, path, authentic, mayStart) =>
      var s := Started(l, wire, mayStart);
      var n := Expand(Highest(s), wire);
      if !authentic || !Acceptable(s, n) then s
      else Log(if n - Highest(s) >= 100 then n else s.base, s.processed + [n])
  }

  function LogOf(l: Log, events: seq<Event>): Log
    decreases |events|
  {
    if events == [] then l else LogOf(LogAfter(l, events[0]), events[1..])
  }

  /** The tracker's marks are those of the log. */
  ghost predicate Follows(h: History, l: Log)
  {
    && h.max == Highest(l) && l.base >= 0 && (forall n :: n in l.processed ==> n > 0)
    && forall n :: h.Seen(n) <==> n <= l.base || n in l.processed
  }

  lemma {:induction false} HighestMore(l: Log, n: int)
    ensures Highest(Log(l.base, l.processed + [n])) == if n > Highest(l) then n else Highest(l)
  {
    assert (l.processed + [n])[..|l.processed|] == l.processed;
  }

  lemma {:induction false} StartFollows(h: History, l: Log, wire: int, mayStart: bool)
    requires Follows(h, l)
    ensures Follows(MaybeStart(h, wire, mayStart), Started(l, wire, mayStart))
  {
    if mayStart && h.max == 0 {
      assert forall n :: n in l.processed ==> 0 < n <= Highest(l);
      assert forall n :: n !in l.processed;
    }
  }

  lemma {:induction false} CheckFollows(h: History, l: Log, n: int, path: int)
    requires Follows(h, l) && Acceptable(l, n)
    ensures Follows(AfterCheck(h, n, path), l)
  {
    FreshIff(h, n, path);
    var c := AfterCheck(h, n, path);
    assert c.max == h.max && c.on0 == h.on0 && c.on1 == h.on1;
    hide Highest, Judge, AfterCheck;
    assert forall x :: c.Seen(x) <==> h.Seen(x);
  }

  lemma {:induction false} JumpFollows(h: History, l: Log, n: int, path: int)
    requires Follows(h, l) && n > l.base && n - h.max >= 100
    ensures Follows(AfterTrack(h, n, path), Log(n, l.processed + [n]))
  {
    var g, more := AfterTrack(h, n, path), l.processed + [n];
    hide Highest;
    assert forall x :: g.Seen(x) <==> x <= n;
    assert forall x :: x in more ==> x <= n;
  }

  lemma {:induction false} MoveFollows(h: History, l: Log, n: int, path: int)
    requires Follows(h, l) && Acceptable(l, n) && n - h.max < 100
    ensures Follows(AfterTrack(h, n, path), Log(l.base, l.processed + [n]))
  {
    HighestMore(l, n);
    var g, more := AfterTrack(h, n, path), l.processed + [n];
    hide Highest;
    assert g.max == if n > h.max then n else h.max;
    assert forall x :: g.Seen(x) <==> h.Seen(x) || x == n;
    hide AfterTrack;
    assert forall x :: x in more <==> x in l.processed || x == n;
    assert forall x :: h.Seen(x) <==> x <= l.base || x in l.processed;
  }

  lemma {:induction false} TrackFollows(h: History, l: Log, n: int, path: int)
    requires Follows(h, l) && Acceptable(l, n)
    ensures Follows(AfterTrack(AfterCheck(h, n, path), n, path),
                    Log(if n - Highest(l) >= 100 then n else l.base, l.processed + [n]))
  {
    hide AfterTrack, AfterCheck, Highest;
    CheckFollows(h, l, n, path);
    if n - Highest(l) >= 100 {
      JumpFollows(AfterCheck(h, n, path), l, n, path);
    } else {
      MoveFollows(AfterCheck(h, n, path), l, n, path);
    }
  }

  lemma {:induction false} StepFollows(h: History, l: Log, e: Event)
    requires Follows(h, l)
    ensures Follows(Step(h, e), LogAfter(l, e))
    ensures LogAfter(l, e).processed == l.processed + Processed(h, e)
  {
    match e
    case EndInterval =>
      assert l.processed + [] == l.processed;
      assert forall n :: AfterInterval(h).Seen(n) <==> h.Seen(n);
    case Packet(wire, path, authentic, mayStart) =>
      StartFollows(h, l, wire, mayStart);
      var g, s := MaybeStart(h, wire, mayStart), Started(l, wire, mayStart);
      var n := Expand(g.max, wire);
      assert s.processed == l.processed;
      FreshIff(g, n, path);
      if authentic && Acceptable(s, n) {
        TrackFollows(g, s, n, path);
      } else {
        var c := AfterCheck(g, n, path);
        assert forall x :: c.Seen(x) <==> g.Seen(x);
        assert l.processed + [] == l.processed;
      }
  }

  lemma {:induction false} RunFollows(h: History, l: Log, events: seq<Event>)
    requires Follows(h, l)
    ensures Follows(Run(h, events), LogOf(l, events))
    ensures LogOf(l, events).processed == l.processed + AllProcessed(h, events)
    decreases |events|
  {
    hide Follows, Step, LogAfter, Processed;
    if events == [] {
      assert l.processed + [] == l.processed;
    } else {
      StepFollows(h, l, events[0]);
      RunFollows(Step(h, events[0]), LogAfter(l, events[0]), events[1..]);
    }
  }

  /** The windowed receiver processes exactly the packets of the one that remembers everything: over
      every run from the start, those that are authentic and whose number was never processed, lies
      after the start of the numbering, and is not below the block before that of the highest. */
  lemma {:induction false} ProcessedIsLog(start: int, events: seq<Event>)
    requires start >= 0
    ensures AllProcessed(Start(start), events) == LogOf(Log(start, []), events).processed
    ensures Follows(Run(Start(start), events), LogOf(Log(start, []), events))
  {
    assert Highest(Log(start, [])) == start;
    RunFollows(Start(start), Log(start, []), events);
    hide LogOf, AllProcessed;
    assert [] + AllProcessed(Start(start), events) == AllProcessed(Start(start), events);
  }

  /** The same for the next packet, when everything is written out. */
  lemma {:induction false} AcceptedIff(h: History, l: Log, wire: int, path: int, authentic: bool)
    requires Follows(h, l)
    ensures var max := Highest(l);
            var n := Expand(max, wire);
            Processed(h, Packet(wire, path, authentic, false)) ==
              if authentic && n !in l.processed && n > l.base && n >= max - max % 64 - 64 then [n] else []
  {
    FreshIff(h, Expand(h.max, wire), path);
  }

  // --- Recovery of the full number from the wire ----------------------------------------

  /** Sixteen bits suffice while the true number is within half their range of the maximum. */
  lemma {:induction false} ExpandRecovers(max: int, number: int, offset: int)
    requires offset % 0x1_0000 == 0
    requires -0x8000 <= number - offset - max < 0x8000
    ensures Expand(max, number % 0x1_0000) == number - offset
  {
    var gap := number - offset - max;
    assert (number % 0x1_0000 - max) % 0x1_0000 == gap % 0x1_0000 by {
      SameRemainder(number % 0x1_0000 - max, gap, -(number / 0x1_0000) + offset / 0x1_0000);
    }
  }

  lemma {:induction false} SameRemainder(a: int, b: int, k: int)
    requires a == b + k * 0x1_0000
    ensures a % 0x1_0000 == b % 0x1_0000
  {}

  /** The first packet chooses a numbering that differs from the sender's by a multiple of
      the wire range, and is the next number expected. */
  lemma {:induction false} FirstPacketFixesOffset(h: History, number: int)
    requires h.max == 0
    ensures var s := MaybeStart(h, number % 0x1_0000, true);
            && Expand(s.max, number % 0x1_0000) == s.max + 1
            && (number - (s.max + 1)) % 0x1_0000 == 0
  {
    var m := (number % 0x1_0000 - 1) % 0x1_0000;
    assert number == number / 0x1_0000 * 0x1_0000 + number % 0x1_0000;
  }

  /** A packet as its sender numbered it. */
  datatype Sent = Sent(number: int, path: int, authentic: bool)
  {
    function OnWire(): Event { Packet(number % 0x1_0000, path, authentic, false) }
    function Starting(): Event { Packet(number % 0x1_0000, path, authentic, true) }

    /** A forged packet that would be number 1 leaves the receiver as it was, with the maximum 0. */
    predicate FixesNumbering() { authentic || number % 0x1_0000 != 1 }
  }

  /** The receiver that is told the sender's numbers in full. */
  ghost function FullStep(h: History, p: Sent, offset: int): History
  {
    var n := p.number - offset;
    var c := AfterCheck(h, n, p.path);
    if Judge(h, n, p.path).Fresh? && p.authentic then AfterTrack(c, n, p.path) else c
  }

  ghost function FullRun(h: History, sent: seq<Sent>, offset: int): History
    decreases |sent|
  {
    if sent == [] then h else FullRun(FullStep(h, sent[0], offset), sent[1..], offset)
  }

  /** Every packet arrives within half the wire range of the highest number so far. */
  ghost predicate StaysClose(h: History, sent: seq<Sent>, offset: int)
    decreases |sent|
  {
    sent == [] ||
    (-0x8000 <= sent[0].number - offset - h.max < 0x8000 &&
     StaysClose(FullStep(h, sent[0], offset), sent[1..], offset))
  }

  function OnWire(sent: seq<Sent>): seq<Event>
  {
    seq(|sent|, i requires 0 <= i < |sent| => sent[i].OnWire())
  }

  lemma {:induction false} WireStepIsFullStep(h: History, p: Sent, offset: int)
    requires offset % 0x1_0000 == 0
    requires -0x8000 <= p.number - offset - h.max < 0x8000
    ensures Step(h, p.OnWire()) == FullStep(h, p, offset)
  {
    ExpandRecovers(h.max, p.number, offset);
    hide AfterCheck, AfterTrack, Judge, Expand;
  }

  /** Sending only the low 16 bits of the number changes nothing, over whole runs. */
  lemma {:induction false} WireRunIsFullRun(h: History, sent: seq<Sent>, offset: int)
    requires offset % 0x1_0000 == 0
    requires StaysClose(h, sent, offset)
    ensures Run(h, OnWire(sent)) == FullRun(h, sent, offset)
    decreases |sent|
  {
    if sent != [] {
      WireStepIsFullStep(h, sent[0], offset);
      var events := OnWire(sent);
      assert events[0] == sent[0].OnWire();
      assert events[1..] == OnWire(sent[1..]);
      hide Step, FullStep;
      WireRunIsFullRun(FullStep(h, sent[0], offset), sent[1..], offset);
    }
  }

  // --- A fresh receiver -----------------------------------------------------------------

  /** The packets of a run in which each may choose the numbering, if none has yet. */
  function OnWireMayStart(sent: seq<Sent>): seq<Event>
  {
    seq(|sent|, i requires 0 <= i < |sent| => sent[i].Starting())
  }

  /** By how much the numbering that the first packet chooses differs from the sender's. */
  function FirstOffset(first: Sent): int
  {
    first.number - ((first.number % 0x1_0000 - 1) % 0x1_0000 + 1)
  }

  lemma {:induction false} OffsetIsMultiple(first: Sent)
    ensures FirstOffset(first) % 0x1_0000 == 0
  {
    var w := first.number % 0x1_0000;
    assert first.number == first.number / 0x1_0000 * 0x1_0000 + w;
    SameRemainder(FirstOffset(first), w - ((w - 1) % 0x1_0000 + 1), first.number / 0x1_0000);
  }

  /** The first packet fixes the numbering, unless it is a forged one that would be number 1: then
      the next packet chooses again. */
  lemma {:induction false} FirstPacketStarts(h: History, first: Sent)
    requires Sound(h) && h.max == 0
    ensures var s := MaybeStart(h, first.number % 0x1_0000, true);
            var next := Step(h, first.Starting());
            && next == FullStep(s, first, FirstOffset(first))
            && (next.max > 0 <==> first.FixesNumbering())
  {
    FirstPacketFixesOffset(h, first.number);
    MaybeStartIsSound(h, first.number % 0x1_0000, true);
    var s := MaybeStart(h, first.number % 0x1_0000, true);
    var n := Expand(s.max, first.number % 0x1_0000);
    assert n == s.max + 1 == first.number - FirstOffset(first);
    assert Marked(s) && Judge(s, n, first.path).Fresh?;
  }

  lemma {:induction false} MaximumStays(h: History, p: Sent, offset: int)
    ensures FullStep(h, p, offset).max >= h.max
  {}

  lemma {:induction false} LaterRunIsFullRun(h: History, sent: seq<Sent>, offset: int)
    requires offset % 0x1_0000 == 0 && h.max > 0 && StaysClose(h, sent, offset)
    ensures Run(h, OnWireMayStart(sent)) == FullRun(h, sent, offset)
    decreases |sent|
  {
    if sent != [] {
      var events := OnWireMayStart(sent);
      assert Step(h, events[0]) == Step(h, sent[0].OnWire());
      WireStepIsFullStep(h, sent[0], offset);
      MaximumStays(h, sent[0], offset);
      assert events[1..] == OnWireMayStart(sent[1..]);
      hide Step, FullStep;
      LaterRunIsFullRun(FullStep(h, sent[0], offset), sent[1..], offset);
    }
  }

  lemma {:induction false} StartedRunIsFullRun(h: History, s: History, sent: seq<Sent>, offset: int)
    requires sent != [] && offset % 0x1_0000 == 0 && StaysClose(s, sent, offset)
    requires Step(h, sent[0].Starting()) == FullStep(s, sent[0], offset)
    requires FullStep(s, sent[0], offset).max > 0
    ensures Run(h, OnWireMayStart(sent)) == FullRun(s, sent, offset)
  {
    hide Step, FullStep;
    var events := OnWireMayStart(sent);
    assert events[0] == sent[0].Starting();
    assert events[1..] == OnWireMayStart(sent[1..]);
    LaterRunIsFullRun(FullStep(s, sent[0], offset), sent[1..], offset);
  }

  /** The first packet fixes an offset, and every later step keeps it. */
  lemma {:induction false} FixedRunIsFullRun(h: History, sent: seq<Sent>)
    requires Sound(h) && h.max == 0
    requires sent != [] && sent[0].FixesNumbering()
    requires StaysClose(MaybeStart(h, sent[0].number % 0x1_0000, true), sent, FirstOffset(sent[0]))
    ensures Run(h, OnWireMayStart(sent)) ==
            FullRun(MaybeStart(h, sent[0].number % 0x1_0000, true), sent, FirstOffset(sent[0]))
  {
    OffsetIsMultiple(sent[0]);
    hide Step, FullStep, FirstOffset, MaybeStart, Sound, Run, FullRun, StaysClose;
    FirstPacketStarts(h, sent[0]);
    StartedRunIsFullRun(h, MaybeStart(h, sent[0].number % 0x1_0000, true), sent, FirstOffset(sent[0]));
  }

  lemma {:induction false} NothingFixed(h: History, sent: seq<Sent>)
    requires Sound(h) && h.max == 0 && forall p :: p in sent ==> !p.FixesNumbering()
    ensures var g := Run(h, OnWireMayStart(sent)); Sound(g) && g.max == 0
    decreases |sent|
  {
    hide Sound, Step, FullStep, MaybeStart;
    if sent != [] {
      var events := OnWireMayStart(sent);
      FirstPacketStarts(h, sent[0]);
      StepIsSound(h, events[0]);
      SoundIsNatural(Step(h, events[0]));
      assert events[1..] == OnWireMayStart(sent[1..]);
      NothingFixed(Step(h, events[0]), sent[1..]);
    }
  }

  lemma SoundIsNatural(h: History)
    requires Sound(h)
    ensures h.max >= 0
  {}

  lemma {:induction false} RunInParts(h: History, first: seq<Event>, rest: seq<Event>)
    ensures Run(h, first + rest) == Run(Run(h, first), rest)
    decreases |first|
  {
    hide Step;
    if first == [] {
      assert first + rest == rest;
    } else {
      assert (first + rest)[1..] == first[1..] + rest;
      RunInParts(Step(h, first[0]), first[1..], rest);
    }
  }

  /** A fresh receiver: the first packet that fixes the numbering chooses an offset, and every later
      step keeps it. From that packet on, the run is that of a receiver which is told the full
      numbers. */
  lemma {:induction false} FreshRunIsFullRun(h: History, sent: seq<Sent>, k: nat)
    requires Sound(h) && h.max == 0
    requires k < |sent| && sent[k].FixesNumbering() && forall i :: 0 <= i < k ==> !sent[i].FixesNumbering()
    requires var g := Run(h, OnWireMayStart(sent[..k]));
             StaysClose(MaybeStart(g, sent[k].number % 0x1_0000, true), sent[k..], FirstOffset(sent[k]))
    ensures FirstOffset(sent[k]) % 0x1_0000 == 0
    ensures var g := Run(h, OnWireMayStart(sent[..k]));
            && Sound(g) && g.max == 0
            && Run(h, OnWireMayStart(sent)) ==
               FullRun(MaybeStart(g, sent[k].number % 0x1_0000, true), sent[k..], FirstOffset(sent[k]))
  {
    OffsetIsMultiple(sent[k]);
    hide Step, FullStep, FirstOffset, MaybeStart, Sound, Run, FullRun, StaysClose;
    NothingFixed(h, sent[..k]);
    assert OnWireMayStart(sent) == OnWireMayStart(sent[..k]) + OnWireMayStart(sent[k..]);
    RunInParts(h, OnWireMayStart(sent[..k]), OnWireMayStart(sent[k..]));
    FixedRunIsFullRun(Run(h, OnWireMayStart(sent[..k])), sent[k..]);
  }
}
