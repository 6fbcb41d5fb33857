/** The sequenced-packet tracker with its two-word sliding bitmasks, refining `PacketHistory`. */
module LinkStats {
  import opened Basics
  import opened Bits64
  import opened PacketHistory

  const ALL_ONES: bv64 := 0xFFFF_FFFF_FFFF_FFFF

  /** The size of the window in bytes: two words. */
  const MASK_BYTES := 16

  /** The words `lo` and `hi` hold the marks of the 64 numbers before `block` and from it. */
  ghost predicate Agrees(lo: bv64, hi: bv64, block: int, marks: iset<int>)
  {
    forall k :: 0 <= k < 64 ==>
      (Has(lo, k) <==> block - 64 + k in marks) && (Has(hi, k) <==> block + k in marks)
  }

  /** The word of the window that holds number `n`: 0 or 1 inside the window. */
  function WordIndex(max: int, n: int): int
  {
    (n - Block(max)) / 64 + 1
  }

  lemma {:induction false} WordIndexRange(max: int, n: int)
    ensures WordIndex(max, n) < 0 <==> n < Block(max) - 64
    ensures n <= max ==> WordIndex(max, n) < 2
    ensures n > max ==> WordIndex(max, n) > 0
    ensures n > max && WordIndex(max, n) < 2 ==> Block(n) == Block(max)
    ensures WordIndex(max, n) == 0 <==> Block(max) - 64 <= n < Block(max)
    ensures WordIndex(max, n) == 1 <==> Block(max) <= n < Block(max) + 64
    ensures WordIndex(max, n) == 2 <==> Block(n) == Block(max) + 64
    ensures WordIndex(max, n) > 2 <==> Block(n) > Block(max) + 64
    ensures 0 <= WordIndex(max, n) < 2 ==> InWord(Block(max), WordIndex(max, n), n)
    ensures InWord(Block(n), 1, n)
  {
    assert max == max / 64 * 64 + max % 64;
    assert n == n / 64 * 64 + n % 64;
    assert n - Block(max) == (n / 64 - max / 64) * 64 + n % 64;
    assert (n - Block(max)) / 64 == n / 64 - max / 64;
  }

  /** A number inside the window is less than two words below the maximum. */
  lemma {:induction false} InWindowIsClose(max: int, n: int)
    ensures WordIndex(max, n) >= 0 ==> n - max > -8 * MASK_BYTES
  {
    WordIndexRange(max, n);
    hide WordIndex;
    assert max == max / 64 * 64 + max % 64;
  }

  /** Where the mark of number `n` is kept: bit `n % 64` of word `i`. */
  predicate InWord(block: int, i: int, n: int)
  {
    0 <= i < 2 && n == block + (i - 1) * 64 + n % 64
  }

  lemma {:induction false} AgreesLookup(lo: bv64, hi: bv64, block: int, marks: iset<int>, n: int, i: int)
    requires Agrees(lo, hi, block, marks) && InWord(block, i, n)
    ensures Has(if i == 0 then lo else hi, n % 64) <==> n in marks
  {
    hide Has, Bit;
  }

  lemma {:induction false} AgreesMark(lo: bv64, hi: bv64, block: int, marks: iset<int>, n: int, i: int, w: bv64)
    requires Agrees(lo, hi, block, marks) && InWord(block, i, n)
    requires forall k :: 0 <= k < 64 ==> (Has(w, k) <==> Has(if i == 0 then lo else hi, k) || k == n % 64)
    ensures i == 0 ==> Agrees(w, hi, block, marks + iset{n})
    ensures i == 1 ==> Agrees(lo, w, block, marks + iset{n})
  {
    hide Has, Bit;
  }

  /** Crossing into the next block keeps the upper word as the lower one. */
  lemma {:induction false} AgreesShift(lo: bv64, hi: bv64, block: int, marks: iset<int>)
    requires Agrees(lo, hi, block, marks)
    requires forall n :: n in marks ==> n < block + 64
    ensures Agrees(hi, 0, block + 64, marks)
  {
    hide Has, Bit;
    forall k | 0 <= k < 64
      ensures !Has(0, k)
    {
      HasConstant(k);
    }
  }

  /** Skipping a whole block clears both words. */
  lemma {:induction false} AgreesClear(block: int, marks: iset<int>)
    requires forall n :: n in marks ==> n < block - 64
    ensures Agrees(0, 0, block, marks)
  {
    hide Has, Bit;
    forall k | 0 <= k < 64
      ensures !Has(0, k)
    {
      HasConstant(k);
    }
  }

  lemma {:induction false} AgreesUpTo(max: int)
    ensures Agrees(ALL_ONES, OnesUpTo(max % 64), Block(max), UpTo(max))
  {
    hide Has, Bit, OnesUpTo;
    forall k | 0 <= k < 64
      ensures Has(ALL_ONES, k)
      ensures Has(OnesUpTo(max % 64), k) <==> k <= max % 64
    {
      HasConstant(k);
      HasOnesUpTo(max % 64, k);
    }
  }

  lemma {:induction false} UnionWord(lo: bv64, hi: bv64, lo0: bv64, hi0: bv64, lo1: bv64, hi1: bv64,
                                     block: int, on0: iset<int>, on1: iset<int>)
    requires Agrees(lo, hi, block, on0 + on1) && Agrees(lo0, hi0, block, on0) && Agrees(lo1, hi1, block, on1)
    ensures IsOr(lo, lo0, lo1) && IsOr(hi, hi0, hi1)
  {
    hide Has, Bit, IsOr;
    SameAsOr(lo, lo0, lo1);
    SameAsOr(hi, hi0, hi1);
  }

  /** The counters of the current interval. */
  class SequencedPacketCounters {
    var recv: int
    var dropped: int
    var outOfOrder: int
    var outOfOrderCorrected: int
    var lurch: int
    var duplicate: int
    var maxJitter: int

    constructor ()
      ensures recv == 0 && dropped == 0 && outOfOrder == 0 && lurch == 0 && duplicate == 0
    {
      recv, dropped, outOfOrder, outOfOrderCorrected, lurch, duplicate := 0, 0, 0, 0, 0, 0;
      maxJitter := -1;
    }

    method Reset()
      modifies this
      ensures recv == 0 && dropped == 0 && outOfOrder == 0 && outOfOrderCorrected == 0
      ensures lurch == 0 && duplicate == 0 && maxJitter == -1
    {
      recv, dropped, outOfOrder, outOfOrderCorrected, lurch, duplicate := 0, 0, 0, 0, 0, 0;
      maxJitter := -1;
    }

    function Weird(): int
      reads this
    {
      outOfOrder + lurch + duplicate
    }

    method OnOutOfOrder()
      modifies `outOfOrder, `dropped
      ensures outOfOrder == old(outOfOrder) + 1
      ensures dropped == if old(dropped) > 0 then old(dropped) - 1 else old(dropped)
    {
      outOfOrder := outOfOrder + 1;
      // It was counted as dropped before, maybe in an earlier interval.
      if dropped > 0 {
        dropped := dropped - 1;
      }
    }
  }

  /** Gaps between sent or received packets count for jitter below this many microseconds. */
  const MAX_REASONABLE_GAP := 250_000

  function Abs(x: int): int { if x < 0 then -x else x }

  /** Jitter is the difference between two reasonable gaps, and its maximum is kept. */
  function JitterAfter(jitter: int, recvGap: int, senderGap: int): int
  {
    if 0 <= senderGap < MAX_REASONABLE_GAP && 0 <= recvGap < MAX_REASONABLE_GAP then Max(jitter, Abs(recvGap - senderGap))
    else jitter
  }

  /** The maximum grows to the difference of the gaps, if both are below a quarter of a second. */
  lemma JitterIs(jitter: int, recvGap: int, senderGap: int)
    ensures var bigger := JitterAfter(jitter, recvGap, senderGap);
            if 0 <= recvGap < 250_000 && 0 <= senderGap < 250_000 && !(-jitter <= recvGap - senderGap <= jitter)
            then bigger == recvGap - senderGap || bigger == senderGap - recvGap
            else bigger == jitter
    ensures JitterAfter(jitter, recvGap, senderGap) >= jitter
  {}

  class LinkStatsTracker {
    var maxRecvPktNum: int
    var timeLastRecvSeq: int
    const recvMask: array<bv64>
    const pathMask: array2<bv64>
    var pktsRecvSequenced: int
    const pathRecvSeq: array<int>
    const pathRecvLater: array<int>
    const counters: SequencedPacketCounters
    var droppedAccumulator: int
    var outOfOrderAccumulator: int
    var outOfOrderCorrectedAccumulator: int
    var lurchAccumulator: int
    var duplicateAccumulator: int
    var intervalStart: int

    /** What has happened to this tracker, as the reference describes it. */
    ghost var history: History

    ghost predicate Shape()
    {
      && recvMask as object !in {pathMask as object, pathRecvSeq, pathRecvLater}
      && recvMask.Length == 2 && pathMask.Length0 == 2 && pathMask.Length1 == 2
      && pathRecvSeq.Length == 2 && pathRecvLater.Length == 2 && pathRecvSeq != pathRecvLater
    }

    ghost predicate Tallies()
      requires Shape()
      reads this, pathRecvSeq, pathRecvLater, counters
    {
      history.tally == Tally(
        counters.recv, counters.dropped, counters.outOfOrder, counters.lurch, counters.duplicate,
        droppedAccumulator, outOfOrderAccumulator, lurchAccumulator, duplicateAccumulator,
        pktsRecvSequenced, pathRecvSeq[0], pathRecvSeq[1], pathRecvLater[0], pathRecvLater[1])
    }

    /** The words of the window whose upper block starts at `block` show the marks of `h`. */
    ghost predicate MasksShow(block: int, h: History)
      requires Shape()
      reads recvMask, pathMask
    {
      && Agrees(recvMask[0], recvMask[1], block, h.on0 + h.on1)
      && (forall p :: 0 <= p < 2 ==> Agrees(pathMask[p, 0], pathMask[p, 1], block, h.On(p)))
    }

    ghost predicate Masks()
      requires Shape()
      reads this, recvMask, pathMask
    {
      MasksShow(Block(maxRecvPktNum), history)
    }

    lemma SameMarks(block: int, g: History, h: History)
      requires Shape() && MasksShow(block, g) && g.on0 == h.on0 && g.on1 == h.on1
      ensures MasksShow(block, h)
    {
    }

    ghost predicate Valid()
      reads this, recvMask, pathMask, pathRecvSeq, pathRecvLater, counters
    {
      Shape() && maxRecvPktNum == history.max && Sound(history) && Tallies() && Masks()
    }

    /** Each word of the window is the union of the words of the two paths. */
    lemma MaskIsUnion(i: int)
      requires Valid() && 0 <= i < 2
      ensures IsOr(recvMask[i], pathMask[0, i], pathMask[1, i])
    {
      hide Sound, Tallies, Agrees, IsOr;
      UnionWord(recvMask[0], recvMask[1], pathMask[0, 0], pathMask[0, 1], pathMask[1, 0], pathMask[1, 1],
                Block(maxRecvPktNum), history.On(0), history.On(1));
    }

    function PktsRecvDropped(): int
      reads this, counters
    {
      droppedAccumulator + counters.dropped
    }

    constructor ()
      ensures Valid() && history == Start(0) && timeLastRecvSeq == 0
    {
      recvMask := new bv64[2];
      pathMask := new bv64[2, 2];
      pathRecvSeq := new int[2];
      pathRecvLater := new int[2];
      counters := new SequencedPacketCounters();
      new;
      InitInternal();
    }

    method InitInternal()
      requires Shape()
      modifies this, recvMask, pathMask, pathRecvSeq, pathRecvLater, counters
      ensures Valid() && history == Start(0) && timeLastRecvSeq == 0
    {
      hide Has, Bit, Sound, Agrees;
      timeLastRecvSeq, intervalStart := 0, 0;
      pathRecvLater[0], pathRecvLater[1] := 0, 0;
      pathRecvSeq[0], pathRecvSeq[1] := 0, 0;
      counters.Reset();
      pktsRecvSequenced, droppedAccumulator, outOfOrderAccumulator := 0, 0, 0;
      outOfOrderCorrectedAccumulator, duplicateAccumulator, lurchAccumulator := 0, 0, 0;
      history := Start(0);
      InitMaxRecvPktNum(0);
      StartIsSound(0);
    }

    /** Expects the packet after `num` next and discards everything up to it. */
    method InitMaxRecvPktNum(num: int)
      requires num >= 0 && Shape()
      modifies `maxRecvPktNum, `history, recvMask, pathMask
      ensures maxRecvPktNum == num && history == Restart(old(history), num)
      ensures Masks()
    {
      hide Has, Bit, OnesUpTo;
      maxRecvPktNum := num;
      recvMask[0] := ALL_ONES;
      recvMask[1] := OnesUpTo(num % 64);
      pathMask[0, 0] := recvMask[0];
      pathMask[1, 0] := recvMask[0];
      pathMask[0, 1] := recvMask[1];
      pathMask[1, 1] := recvMask[1];
      history := Restart(history, num);
      AgreesUpTo(num);
      assert UpTo(num) + UpTo(num) == UpTo(num);
    }

    method CountPacket(path: int)
      requires Shape() && Tallies() && 0 <= path < 2
      modifies `pktsRecvSequenced, `history, pathRecvSeq, counters`recv
      ensures Tallies()
      ensures history == Counted(old(history), path)
    {
      counters.recv := counters.recv + 1;
      pktsRecvSequenced := pktsRecvSequenced + 1;
      pathRecvSeq[path] := pathRecvSeq[path] + 1;
      history := Counted(history, path);
    }

    /** Marks `num` as received on one path. */
    method MarkOnPath(num: int, path: int, i: int, ghost block: int)
      requires Shape() && MasksShow(block, history) && 0 <= path < 2 && InWord(block, i, num)
      modifies pathMask
      ensures forall p :: 0 <= p < 2 ==>
                Agrees(pathMask[p, 0], pathMask[p, 1], block, history.Mark(path, num).On(p))
    {
      hide Has, Bit, Agrees;
      var w := SetBit(pathMask[path, i], num % 64);
      AgreesMark(pathMask[path, 0], pathMask[path, 1], block, history.On(path), num, i, w);
      ghost var was := history.On(1 - path);
      pathMask[path, i] := w;
      forall p | 0 <= p < 2
        ensures Agrees(pathMask[p, 0], pathMask[p, 1], block, history.Mark(path, num).On(p))
      {
        if p == path {
        } else {
          assert p == 1 - path;
        }
      }
    }

    /** The other path delivered `num` first: notes that this path has it now, too. */
    method NoteLater(num: int, path: int, i: int)
      requires Shape() && Tallies() && Masks() && 0 <= path < 2
      requires InWord(Block(maxRecvPktNum), i, num) && history.Seen(num)
      modifies `history, pathMask, pathRecvLater
      ensures Tallies() && Masks()
      ensures history == Late(old(history), num, path)
    {
      hide Has, Bit, Agrees, Block;
      pathRecvLater[path] := pathRecvLater[path] + 1;
      MarkOnPath(num, path, i, Block(maxRecvPktNum));
      ghost var marks := history.on0 + history.on1;
      history := Late(history, num, path);
      assert history.on0 + history.on1 == marks;
    }

    /** Whether `num` was received at all, and whether on this path. */
    method Lookup(num: int, path: int, i: int) returns (any: bool, here: bool)
      requires Shape() && Masks() && 0 <= path < 2
      requires InWord(Block(maxRecvPktNum), i, num)
      ensures any <==> history.Seen(num)
      ensures here <==> num in history.On(path)
    {
      hide Has, Bit, Agrees;
      AgreesLookup(recvMask[0], recvMask[1], Block(maxRecvPktNum), history.on0 + history.on1, num, i);
      AgreesLookup(pathMask[path, 0], pathMask[path, 1], Block(maxRecvPktNum), history.On(path), num, i);
      any := Has(recvMask[i], num % 64);
      here := Has(pathMask[path, i], num % 64);
    }

    /** Expands a wire number and checks it. Zero means that the packet is to be dropped. */
    method ExpandWirePacketNumberAndCheck(wire: int, path: int) returns (num: int)
      requires Valid() && 0 <= wire < 0x1_0000 && 0 <= path < 2
      modifies `pktsRecvSequenced, `history, pathMask, pathRecvSeq, pathRecvLater, counters
      ensures Valid()
      ensures var max, n := old(maxRecvPktNum), Expand(old(maxRecvPktNum), wire);
              && history == AfterCheck(old(history), n, path)
              && num == (if !old(history).Seen(n) && n >= max - max % 64 - 64 then n else 0)
              && CheckCounts(old(history), n, path, history)
    {
      hide Sound, Agrees, Block, WordIndex, Expand, ToInt16, InWord, Late, CheckCounts;
      ghost var h := history;
      var gap := ToInt16(wire - maxRecvPktNum % 0x1_0000);
      num := maxRecvPktNum + gap;
      WireGap(wire, maxRecvPktNum);
      CheckIsSound(h, num, path);
      SoundBounds(h, num);
      CheckCountsIt(h, num, path);
      FreshIff(h, num, path);
      WordIndexRange(h.max, num);
      CountPacket(path);
      if num > maxRecvPktNum {
        history := history.(accepted := history.accepted + 1);
        return;
      }
      var i := WordIndex(maxRecvPktNum, num);
      assert i < 2;
      if i < 0 {
        counters.lurch := counters.lurch + 1;
        history := history.(tooOld := h.tooOld + 1, tally := history.tally.(lurch := h.tally.lurch + 1));
        num := 0;
        return;
      }
      var any, here := Lookup(num, path, i);
      if any {
        if here {
          counters.duplicate := counters.duplicate + 1;
          history := history.(tally := history.tally.(duplicate := h.tally.duplicate + 1));
        } else {
          NoteLater(num, path, i);
        }
        num := 0;
        return;
      }
      assert 0 < num < maxRecvPktNum;
      history := history.(accepted := history.accepted + 1);
    }

    method ExpandWirePacketNumberAndCheckMaybeInitialize(wire: int, path: int) returns (num: int)
      requires Valid() && 0 <= wire < 0x1_0000 && 0 <= path < 2
      modifies `maxRecvPktNum, `pktsRecvSequenced, `history, recvMask, pathMask, pathRecvSeq, pathRecvLater, counters
      ensures Valid()
      ensures var h := MaybeStart(old(history), wire, true);
              var n := Expand(h.max, wire);
              && history == AfterCheck(h, n, path)
              && num == (if !h.Seen(n) && n >= h.max - h.max % 64 - 64 then n else 0)
      ensures old(maxRecvPktNum) == 0 ==> maxRecvPktNum == (wire - 1) % 0x1_0000 && num == maxRecvPktNum + 1
      ensures old(maxRecvPktNum) != 0 ==>
                var max, n := old(maxRecvPktNum), Expand(old(maxRecvPktNum), wire);
                && maxRecvPktNum == max && num == (if !old(history).Seen(n) && n >= max - max % 64 - 64 then n else 0)
    {
      hide Sound, Agrees, AfterCheck, Judge, Expand, CheckCounts;
      FirstIsExpected(wire);
      MaybeStartIsSound(history, wire, true);
      if maxRecvPktNum == 0 {
        InitMaxRecvPktNum((wire - 1) % 0x1_0000);
      }
      num := ExpandWirePacketNumberAndCheck(wire, path);
    }

    /** Slides the window forward so that its upper block holds `num`. */
    method SlideTo(num: int, i: int)
      requires Shape() && Masks() && maxRecvPktNum == history.max && Marked(history)
      requires i == WordIndex(maxRecvPktNum, num) && i >= 2
      modifies recvMask, pathMask
      ensures MasksShow(Block(num), history)
    {
      hide Has, Bit, Agrees;
      ghost var b, on0, on1 := Block(maxRecvPktNum), history.on0, history.on1;
      WordIndexRange(maxRecvPktNum, num);
      assert forall n :: n in on0 || n in on1 ==> history.Seen(n);
      if i == 2 {
        AgreesShift(recvMask[0], recvMask[1], b, on0 + on1);
        AgreesShift(pathMask[0, 0], pathMask[0, 1], b, history.On(0));
        AgreesShift(pathMask[1, 0], pathMask[1, 1], b, history.On(1));
        recvMask[0] := recvMask[1];
        pathMask[0, 0] := pathMask[0, 1];
        pathMask[1, 0] := pathMask[1, 1];
      } else {
        AgreesClear(Block(num), on0 + on1);
        AgreesClear(Block(num), history.On(0));
        AgreesClear(Block(num), history.On(1));
        recvMask[0] := 0;
        pathMask[0, 0] := 0;
        pathMask[1, 0] := 0;
      }
      recvMask[1] := 0;
      pathMask[0, 1] := 0;
      pathMask[1, 1] := 0;
    }

    /** Marks `num` as received, overall and on the path. */
    method MarkReceived(num: int, path: int, i: int, ghost block: int)
      requires Shape() && MasksShow(block, history) && 0 <= path < 2 && InWord(block, i, num)
      modifies recvMask, pathMask
      ensures MasksShow(block, history.Mark(path, num))
    {
      hide Has, Bit, Agrees;
      ghost var marks := history.on0 + history.on1;
      MarkOnPath(num, path, i, block);
      var w := SetBit(recvMask[i], num % 64);
      AgreesMark(recvMask[0], recvMask[1], block, marks, num, i, w);
      recvMask[i] := w;
      ghost var g := history.Mark(path, num);
      assert g.on0 + g.on1 == marks + iset{num};
    }

    method CountOutOfOrder()
      requires Shape() && Tallies()
      modifies `history, counters
      ensures Tallies() && history == OutOfOrder(old(history))
      ensures counters.maxJitter == old(counters.maxJitter)
    {
      counters.OnOutOfOrder();
      history := OutOfOrder(history);
    }

    method SampleJitter(usecNow: int, senderGap: int)
      requires timeLastRecvSeq <= usecNow
      modifies counters`maxJitter
      ensures counters.maxJitter == JitterAfter(old(counters.maxJitter), usecNow - timeLastRecvSeq, senderGap)
    {
      if 0 <= senderGap < MAX_REASONABLE_GAP {
        var recvGap := usecNow - timeLastRecvSeq;
        assert recvGap >= 0;
        if recvGap < MAX_REASONABLE_GAP {
          counters.maxJitter := Max(counters.maxJitter, Abs(recvGap - senderGap));
        }
      }
    }

    /** Updates the bitfield of received packets, sliding the window when needed. */
    method MarkInWindow(num: int, path: int)
      requires Shape() && Masks() && 0 <= path < 2
      requires Marked(history) && maxRecvPktNum == history.max && WordIndex(maxRecvPktNum, num) >= 0
      requires !history.Seen(num)
      modifies recvMask, pathMask
      ensures MasksShow(if num > maxRecvPktNum then Block(num) else Block(maxRecvPktNum), history.Mark(path, num))
    {
      hide Agrees, Block, WordIndex, InWord, Marked;
      WordIndexRange(maxRecvPktNum, num);
      ghost var block := Block(maxRecvPktNum);
      var i := WordIndex(maxRecvPktNum, num);
      if i >= 2 {
        SlideTo(num, i);
        i := 1;
        block := Block(num);
      }
      assert num !in history.on0 + history.on1;
      AgreesLookup(recvMask[0], recvMask[1], block, history.on0 + history.on1, num, i);
      assert !Has(recvMask[i], num % 64);
      MarkReceived(num, path, i, block);
    }

    /** Processes a packet that passed the check. Calls come in the order of time: this one is not
        earlier than the last that moved the maximum, so that no later one will be. */
    method TrackProcessSequencedPacket(num: int, usecNow: int, senderGap: int, path: int)
      requires Valid() && 0 <= path < 2 && timeLastRecvSeq <= usecNow
      requires !history.Seen(num) && num >= maxRecvPktNum - maxRecvPktNum % 64 - 64 && Pending(history)
      modifies `maxRecvPktNum, `timeLastRecvSeq, `history, recvMask, pathMask, counters
      ensures Valid()
      ensures history == AfterTrack(old(history), num, path) && TrackCounts(old(history), num, path, history)
      ensures timeLastRecvSeq == if num > old(maxRecvPktNum) then usecNow else old(timeLastRecvSeq)
      ensures timeLastRecvSeq <= usecNow
      ensures counters.maxJitter ==
              if num == old(maxRecvPktNum) + 1 then JitterAfter(old(counters.maxJitter), usecNow - old(timeLastRecvSeq), senderGap)
              else old(counters.maxJitter)
    {
      hide Sound, Agrees, Block, WordIndex, Marked, MasksShow, JitterAfter, TrackCounts;
      ghost var h := history;
      SoundBounds(h, num);
      FreshIff(h, num, path);
      TrackCountsIt(h, num, path);
      TrackIsSound(h, num, path);
      WordIndexRange(maxRecvPktNum, num);
      InWindowIsClose(maxRecvPktNum, num);
      assert num > 0;
      MarkInWindow(num, path);
      history := history.Mark(path, num);
      var gap := num - maxRecvPktNum;
      if gap == 1 {
        SampleJitter(usecNow, senderGap);
      } else if gap <= 0 {
        assert gap != 0 && gap >= -8 * MASK_BYTES;
        CountOutOfOrder();
        SameMarks(Block(maxRecvPktNum), h.Mark(path, num), history);
        return;
      } else {
        if gap >= 100 {
          counters.lurch := counters.lurch + 1;
          history := history.(tally := history.tally.(lurch := h.tally.lurch + 1), jumps := h.jumps + 1);
          InitMaxRecvPktNum(num);
          timeLastRecvSeq := usecNow;
          return;
        }
        counters.dropped := counters.dropped + (gap - 1);
      }
      maxRecvPktNum := num;
      timeLastRecvSeq := usecNow;
      history := AfterTrack(h, num, path);
      SameMarks(Block(num), h.Mark(path, num), history);
    }

    /** Starts the next interval: the counters move into the lifetime totals. */
    method StartNextInterval(usecNow: int)
      requires Valid()
      modifies `droppedAccumulator, `outOfOrderAccumulator, `outOfOrderCorrectedAccumulator,
               `lurchAccumulator, `duplicateAccumulator, `intervalStart, `history, counters
      ensures Valid() && history == AfterInterval(old(history))
      ensures PktsRecvDropped() == old(PktsRecvDropped()) && intervalStart == usecNow
      ensures counters.recv == 0 && counters.dropped == 0 && counters.outOfOrder == 0
      ensures counters.lurch == 0 && counters.duplicate == 0
      ensures droppedAccumulator == old(droppedAccumulator + counters.dropped)
      ensures outOfOrderAccumulator == old(outOfOrderAccumulator + counters.outOfOrder)
      ensures outOfOrderCorrectedAccumulator == old(outOfOrderCorrectedAccumulator + counters.outOfOrderCorrected)
      ensures lurchAccumulator == old(lurchAccumulator + counters.lurch)
      ensures duplicateAccumulator == old(duplicateAccumulator + counters.duplicate)
      ensures history.max == old(history).max && history.on0 == old(history).on0 && history.on1 == old(history).on1
    {
      hide Sound, Agrees, Block;
      IntervalIsSound(history);
      ghost var h := history;
      droppedAccumulator := droppedAccumulator + counters.dropped;
      outOfOrderAccumulator := outOfOrderAccumulator + counters.outOfOrder;
      outOfOrderCorrectedAccumulator := outOfOrderCorrectedAccumulator + counters.outOfOrderCorrected;
      duplicateAccumulator := duplicateAccumulator + counters.duplicate;
      lurchAccumulator := lurchAccumulator + counters.lurch;
      counters.Reset();
      intervalStart := usecNow;
      history := AfterInterval(h);
    }

    /** A data packet arrives: it is checked, and processed when it is fresh and authentic. */
    method ReceivePacket(wire: int, path: int, authentic: bool, mayStart: bool, usecNow: int, senderGap: int)
      returns (num: int)
      requires Valid() && 0 <= wire < 0x1_0000 && 0 <= path < 2 && timeLastRecvSeq <= usecNow
      modifies `maxRecvPktNum, `timeLastRecvSeq, `pktsRecvSequenced, `history
      modifies recvMask, pathMask, pathRecvSeq, pathRecvLater, counters
      ensures Valid()
      ensures history == Step(old(history), Packet(wire, path, authentic, mayStart))
      ensures timeLastRecvSeq <= usecNow
      ensures Processed(old(history), Packet(wire, path, authentic, mayStart)) == if num == 0 then [] else [num]
    {
      hide Agrees, Block, AfterCheck, AfterTrack, Expand, Tallies, Masks, Sound;
      ghost var h := MaybeStart(history, wire, mayStart);
      MaybeStartIsSound(history, wire, mayStart);
      ghost var n := Expand(h.max, wire);
      SoundBounds(h, n);
      CheckIsSound(h, n, path);
      FreshIff(h, n, path);
      if mayStart {
        num := ExpandWirePacketNumberAndCheckMaybeInitialize(wire, path);
      } else {
        num := ExpandWirePacketNumberAndCheck(wire, path);
      }
      if num != 0 && !authentic {
        num := 0;
      }
      if num != 0 {
        CheckKeepsMarks(h, n, path);
        TrackProcessSequencedPacket(num, usecNow, senderGap, path);
      }
    }
  }

  lemma {:induction false} CheckKeepsMarks(h: History, n: int, path: int)
    ensures var c := AfterCheck(h, n, path); c.max == h.max && (c.Seen(n) <==> h.Seen(n))
  {}

  lemma {:induction false} WireGap(wire: int, max: int)
    ensures max + ToInt16(wire - max % 0x1_0000) == Expand(max, wire)
  {
    SameRemainder(wire - max % 0x1_0000, wire - max, max / 0x1_0000);
  }

  /** The number that is numbered from is the one before the first. */
  lemma {:induction false} FirstIsExpected(wire: int)
    requires 0 <= wire < 0x1_0000
    ensures var max := (wire - 1) % 0x1_0000; Expand(max, wire) == max + 1
  {}

  lemma {:induction false} SoundBounds(h: History, n: int)
    requires Sound(h)
    ensures h.max >= 0
    ensures h.Seen(n) ==> n <= h.max
    ensures !h.Seen(n) ==> n > 0 && n != h.max
    ensures Marked(h)
  {}
}
