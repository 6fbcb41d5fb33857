/** The token bucket that limits how often something may be done. */
module TokenBucket {

  function Max(x: real, y: real): real { if x < y then y else x }

  /** How many tokens are added in `usec` microseconds. */
  function Tokens(usec: int, rate: real): real
  {
    usec as real / 1_000_000.0 * rate
  }

  /** The rate is in tokens for each second: a million microseconds add as many tokens. */
  lemma {:induction false} TokensAre(usec: int, rate: real)
    ensures Tokens(usec, rate) * 1_000_000.0 == usec as real * rate
    ensures Tokens(1_000_000, rate) == rate
  {}

  lemma {:induction false} TokensAdd(a: int, b: int, rate: real)
    ensures Tokens(a + b, rate) == Tokens(a, rate) + Tokens(b, rate)
  {
    var x, y := a as real / 1_000_000.0, b as real / 1_000_000.0;
    assert (a + b) as real / 1_000_000.0 == x + y;
    assert (x + y) * rate == x * rate + y * rate;
  }

  lemma {:induction false} TokensPositive(usec: int, rate: real)
    requires usec >= 0 && rate > 0.0
    ensures Tokens(usec, rate) >= 0.0
  {}

  /** The deficit from a full bucket after the tokens of `usec` microseconds were added. */
  function Refilled(deficit: real, usec: int, rate: real): real
  {
    Max(deficit - Tokens(usec, rate), 0.0)
  }

  class TokenBucketRateLimiter {
    var lastTime: int
    var deficit: real

    constructor ()
      ensures lastTime == 0 && deficit == 0.0
    {
      new;
      Reset();
    }

    method Reset()
      modifies this
      ensures lastTime == 0 && deficit == 0.0
    {
      lastTime := 0;
      deficit := 0.0;
    }

    /** Tries to spend a token. */
    method Check(usecNow: int, rate: real, burst: real) returns (ok: bool)
      requires burst >= 1.0 && rate > 0.0
      modifies this
      ensures lastTime == usecNow
      ensures (deficit, ok) == Checked(old(deficit), usecNow - old(lastTime), rate, burst)
      ensures var refilled := old(deficit) - (usecNow - old(lastTime)) as real / 1_000_000.0 * rate;
              var before := if refilled < 0.0 then 0.0 else refilled;
              && (ok <==> before + 1.0 <= burst)
              && deficit == if ok then before + 1.0 else before
    {
      var elapsed := (usecNow - lastTime) as real / 1_000_000.0;
      lastTime := usecNow;
      deficit := Max(deficit - elapsed * rate, 0.0);
      if deficit + 1.0 > burst {
        return false;
      }
      deficit := deficit + 1.0;
      return true;
    }
  }

  /** The deficit after a check, and whether a token was spent. */
  function Checked(deficit: real, usec: int, rate: real, burst: real): (real, bool)
  {
    var d := Refilled(deficit, usec, rate);
    if d + 1.0 > burst then (d, false) else (d + 1.0, true)
  }

  // --- Runs of checks, given by the microseconds before each ----------------------------

  function After(deficit: real, waits: seq<int>, rate: real, burst: real): real
  {
    if waits == [] then deficit
    else Checked(After(deficit, waits[..|waits| - 1], rate, burst), waits[|waits| - 1], rate, burst).0
  }

  function Spent(deficit: real, waits: seq<int>, rate: real, burst: real): int
  {
    if waits == [] then 0
    else
      var before := waits[..|waits| - 1];
      Spent(deficit, before, rate, burst) +
      (if Checked(After(deficit, before, rate, burst), waits[|waits| - 1], rate, burst).1 then 1 else 0)
  }

  function Elapsed(waits: seq<int>): int
  {
    if waits == [] then 0 else Elapsed(waits[..|waits| - 1]) + waits[|waits| - 1]
  }

  ghost predicate Forward(waits: seq<int>)
  {
    forall i :: 0 <= i < |waits| ==> 0 <= waits[i]
  }

  lemma {:induction false} DeficitStaysInRange(deficit: real, waits: seq<int>, rate: real, burst: real)
    requires 0.0 <= deficit <= burst && burst >= 1.0 && rate > 0.0 && Forward(waits)
    ensures 0.0 <= After(deficit, waits, rate, burst) <= burst
  {
    if waits != [] {
      DeficitStaysInRange(deficit, waits[..|waits| - 1], rate, burst);
      var w := waits[|waits| - 1];
      TokensPositive(w, rate);
    }
  }

  lemma {:induction false} TokensAreConserved(deficit: real, waits: seq<int>, rate: real, burst: real)
    requires 0.0 <= deficit <= burst && burst >= 1.0 && rate > 0.0 && Forward(waits)
    ensures deficit + Spent(deficit, waits, rate, burst) as real
            <= After(deficit, waits, rate, burst) + Tokens(Elapsed(waits), rate)
  {
    if waits == [] {
      assert Tokens(0, rate) == 0.0;
    } else {
      var before, w := waits[..|waits| - 1], waits[|waits| - 1];
      TokensAreConserved(deficit, before, rate, burst);
      TokensAdd(Elapsed(before), w, rate);
      hide Tokens;
    }
  }

  /** Between any two checks, both included, at most `burst` tokens are spent on top of those
      that the rate allows for the time in between, whatever happened before. */
  lemma {:induction false} RateIsBounded(deficit: real, waits: seq<int>, rate: real, burst: real)
    requires 0.0 <= deficit <= burst && burst >= 1.0 && rate > 0.0
    requires waits != [] && Forward(waits)
    ensures Spent(deficit, waits, rate, burst) as real <= burst + Tokens(Elapsed(waits[1..]), rate)
    ensures Spent(deficit, waits, rate, burst) as real * 1_000_000.0
            <= burst * 1_000_000.0 + Elapsed(waits[1..]) as real * rate
  {
    TokensAre(Elapsed(waits[1..]), rate);
    TokensPositive(waits[0], rate);
    var d, ok := Checked(deficit, waits[0], rate, burst).0, Checked(deficit, waits[0], rate, burst).1;
    hide Tokens;
    Split(deficit, waits, rate, burst);
    TokensAreConserved(d, waits[1..], rate, burst);
    DeficitStaysInRange(d, waits[1..], rate, burst);
  }

  lemma {:induction false} Split(deficit: real, waits: seq<int>, rate: real, burst: real)
    requires waits != []
    ensures var c := Checked(deficit, waits[0], rate, burst);
            && After(deficit, waits, rate, burst) == After(c.0, waits[1..], rate, burst)
            && Spent(deficit, waits, rate, burst) == (if c.1 then 1 else 0) + Spent(c.0, waits[1..], rate, burst)
  {
    if |waits| == 1 {
      assert waits[..0] == [] && waits[1..] == [];
    } else {
      var before := waits[..|waits| - 1];
      Split(deficit, before, rate, burst);
      assert before[1..] == waits[1..][..|waits[1..]| - 1];
    }
  }

  /** From a full bucket, any number of tokens up to the burst can be spent at once, and no more. */
  lemma {:induction false} BurstIsGranted(waits: seq<int>, rate: real, burst: real)
    requires burst >= 1.0 && rate > 0.0 && forall i :: 0 <= i < |waits| ==> waits[i] == 0
    ensures Spent(0.0, waits, rate, burst) == if |waits| as real <= burst then |waits| else burst.Floor
    ensures After(0.0, waits, rate, burst) == Spent(0.0, waits, rate, burst) as real
    decreases |waits|
  {
    if waits != [] {
      var before := waits[..|waits| - 1];
      BurstIsGranted(before, rate, burst);
      assert Tokens(0, rate) == 0.0;
      hide Tokens;
      assert Refilled(After(0.0, before, rate, burst), 0, rate) == After(0.0, before, rate, burst);
    }
  }

  /** A wait is worth a token if and only if it is at least as long as the rate takes for one. */
  lemma {:induction false} WorthOne(usec: int, rate: real)
    requires rate > 0.0
    ensures Tokens(usec, rate) >= 1.0 <==> usec as real * rate >= 1_000_000.0
  {
    TokensAre(usec, rate);
  }

  /** A caller that keeps to the rate is never refused. */
  lemma {:induction false} SteadyRateIsNeverRefused(deficit: real, waits: seq<int>, rate: real, burst: real)
    requires 0.0 <= deficit <= burst && burst >= 1.0 && rate > 0.0
    requires forall i :: 0 <= i < |waits| ==> waits[i] as real * rate >= 1_000_000.0
    ensures Spent(deficit, waits, rate, burst) == |waits|
    ensures 0.0 <= After(deficit, waits, rate, burst) <= burst
  {
    if waits != [] {
      SteadyRateIsNeverRefused(deficit, waits[..|waits| - 1], rate, burst);
      WorthOne(waits[|waits| - 1], rate);
    }
  }
}
