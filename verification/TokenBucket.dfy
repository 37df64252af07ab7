/**
 * The per-address token bucket of packages/core/src/guard.ts, as values: what an address
 * may still spend, the times at which it was let in, and the bound those times obey.
 * Times are milliseconds; tokens are real numbers.
 */
module TokenBucket {
  /** `connectionBurst` and `connectionRefillPerSec`. */
  datatype Limits = Limits(burst: nat, perSecond: real) {
    ghost predicate Valid() {
      burst >= 1 && perSecond >= 0.0
    }
  }

  datatype IpState = IpState(tokens: real, lastRefill: int, concurrent: int)

  function Refill(lim: Limits, ms: int): real {
    ms as real / 1000.0 * lim.perSecond
  }

  /** What `state()` leaves behind for an address seen at `now`. */
  function Refilled(lim: Limits, s: IpState, now: int): IpState {
    if now > s.lastRefill then
      var more := s.tokens + Refill(lim, now - s.lastRefill);
      s.(tokens := if more < lim.burst as real then more else lim.burst as real, lastRefill := now)
    else s
  }

  lemma RefillAdds(lim: Limits, a: int, b: int)
    ensures Refill(lim, a + b) == Refill(lim, a) + Refill(lim, b)
  {
    Distributes(a as real / 1000.0, b as real / 1000.0, lim.perSecond);
  }

  lemma Distributes(x: real, y: real, r: real)
    ensures (x + y) * r == x * r + y * r
  {
  }

  lemma RefillRate(lim: Limits, ms: int)
    ensures Refill(lim, ms) == lim.perSecond * ms as real / 1000.0
  {
  }

  lemma RefillIsPositive(lim: Limits, ms: int)
    requires lim.Valid() && ms >= 0
    ensures Refill(lim, ms) >= 0.0
  {
    ProductIsPositive(ms as real / 1000.0, lim.perSecond);
  }

  lemma ProductIsPositive(x: real, r: real)
    requires x >= 0.0 && r >= 0.0
    ensures x * r >= 0.0
  {
  }

  // ---- the invariant ---------------------------------------------------------

  /** Everything let in since the k-th admission, and what is still unspent, has been paid for. */
  ghost predicate PaidSince(lim: Limits, times: seq<int>, tokens: real, at: int, k: int)
    requires 0 <= k < |times|
  {
    times[k] <= at && (|times| - k) as real + tokens <= lim.burst as real + Refill(lim, at - times[k])
  }

  ghost predicate Paid(lim: Limits, times: seq<int>, tokens: real, at: int) {
    forall k {:trigger PaidSince(lim, times, tokens, at, k)} ::
      0 <= k < |times| ==> PaidSince(lim, times, tokens, at, k)
  }

  /** Since the k-th admission nothing that came in was lost to a full bucket. */
  ghost predicate AllSpentSince(lim: Limits, times: seq<int>, tokens: real, at: int, k: int)
    requires 0 <= k < |times|
  {
    (|times| - k) as real + tokens == lim.burst as real + Refill(lim, at - times[k])
  }

  /** The bucket holds no less than it has to: it is full, or some admission accounts for all of it. */
  ghost predicate Tight(lim: Limits, times: seq<int>, tokens: real, at: int) {
    tokens == lim.burst as real || exists k {:trigger AllSpentSince(lim, times, tokens, at, k)} ::
      0 <= k < |times| && AllSpentSince(lim, times, tokens, at, k)
  }

  /** The i-th to the j-th admission, both counted, came no faster than the bucket allows. */
  ghost predicate Spaced(lim: Limits, times: seq<int>, i: int, j: int)
    requires 0 <= i <= j < |times|
  {
    times[i] <= times[j] && (j + 1 - i) as real <= lim.burst as real + Refill(lim, times[j] - times[i])
  }

  ghost predicate AllSpaced(lim: Limits, times: seq<int>) {
    forall i, j {:trigger Spaced(lim, times, i, j)} :: 0 <= i <= j < |times| ==> Spaced(lim, times, i, j)
  }

  /** One address: the bucket it has, and the times it was let in. */
  ghost predicate Metered(lim: Limits, s: IpState, times: seq<int>) {
    && 0.0 <= s.tokens <= lim.burst as real
    && Paid(lim, times, s.tokens, s.lastRefill) && Tight(lim, times, s.tokens, s.lastRefill)
    && AllSpaced(lim, times)
  }

  function Fresh(lim: Limits, now: int): IpState {
    IpState(lim.burst as real, now, 0)
  }

  lemma RefillKeepsMetered(lim: Limits, s: IpState, times: seq<int>, now: int)
    requires lim.Valid() && Metered(lim, s, times)
    ensures Metered(lim, Refilled(lim, s, now), times)
  {
    var t := Refilled(lim, s, now);
    if now > s.lastRefill {
      RefillIsPositive(lim, now - s.lastRefill);
      forall k | 0 <= k < |times|
        ensures PaidSince(lim, times, t.tokens, t.lastRefill, k)
      {
        assert PaidSince(lim, times, s.tokens, s.lastRefill, k);
        RefillAdds(lim, now - s.lastRefill, s.lastRefill - times[k]);
      }
      if t.tokens != lim.burst as real {
        var k :| 0 <= k < |times| && AllSpentSince(lim, times, s.tokens, s.lastRefill, k);
        RefillAdds(lim, now - s.lastRefill, s.lastRefill - times[k]);
        assert AllSpentSince(lim, times, t.tokens, t.lastRefill, k);
      }
    }
  }

  lemma AdmitKeepsMetered(lim: Limits, s: IpState, times: seq<int>)
    requires lim.Valid() && Metered(lim, s, times) && s.tokens >= 1.0
    ensures Metered(lim, s.(tokens := s.tokens - 1.0), times + [s.lastRefill])
  {
    var longer := times + [s.lastRefill];
    var left := s.tokens - 1.0;
    forall k | 0 <= k < |longer|
      ensures PaidSince(lim, longer, left, s.lastRefill, k)
    {
      if k < |times| { assert PaidSince(lim, times, s.tokens, s.lastRefill, k); }
    }
    if s.tokens == lim.burst as real {
      assert AllSpentSince(lim, longer, left, s.lastRefill, |times|);
    } else {
      var k :| 0 <= k < |times| && AllSpentSince(lim, times, s.tokens, s.lastRefill, k);
      assert AllSpentSince(lim, longer, left, s.lastRefill, k);
    }
    forall i, j | 0 <= i <= j < |longer|
      ensures Spaced(lim, longer, i, j)
    {
      if j < |times| { assert Spaced(lim, times, i, j); }
      else { assert PaidSince(lim, longer, left, s.lastRefill, i); }
    }
  }

  /** A full bucket may be forgotten: the one made later, full again, owes nothing either. */
  lemma ForgettingIsSafe(lim: Limits, s: IpState, times: seq<int>, now: int)
    requires lim.Valid() && Metered(lim, s, times) && s.tokens >= lim.burst as real && now >= s.lastRefill
    ensures Metered(lim, Fresh(lim, now), times)
  {
    RefillKeepsMetered(lim, s, times, now);
    RefillIsPositive(lim, now - s.lastRefill);
    var t := Refilled(lim, s, now);
    var full := lim.burst as real;
    forall k | 0 <= k < |times|
      ensures PaidSince(lim, times, full, now, k)
    {
      assert PaidSince(lim, times, t.tokens, t.lastRefill, k);
    }
  }

  // ---- what it means ---------------------------------------------------------

  function Admissions(times: seq<int>, t1: int, t2: int): nat {
    if times == [] then 0
    else Admissions(times[..|times| - 1], t1, t2) + if t1 <= times[|times| - 1] <= t2 then 1 else 0
  }

  ghost predicate Ascending(times: seq<int>) {
    forall i, j :: 0 <= i <= j < |times| ==> times[i] <= times[j]
  }

  /** The admissions in a window are neighbours in the log. */
  lemma {:induction false} WindowIsASlice(times: seq<int>, t1: int, t2: int) returns (i: nat)
    requires Ascending(times)
    ensures i + Admissions(times, t1, t2) <= |times|
    ensures Admissions(times, t1, t2) > 0 ==> t1 <= times[i] && times[i + Admissions(times, t1, t2) - 1] <= t2
    ensures forall k :: 0 <= k < i ==> times[k] < t1
    ensures i < |times| && Admissions(times, t1, t2) == 0 ==> t2 < times[i]
    ensures Admissions(times, t1, t2) > 0 ==> forall k :: i + Admissions(times, t1, t2) <= k < |times| ==> t2 < times[k]
  {
    if times == [] {
      i := 0;
    } else {
      var n := |times| - 1;
      i := WindowIsASlice(times[..n], t1, t2);
      if Admissions(times[..n], t1, t2) == 0 && i == n && times[n] < t1 {
        i := |times|;
      }
    }
  }

  /**
   * Counting from the k-th admission, one more at `now` would exceed the burst and `perSecond`
   * more for each second since.
   */
  predicate OneMoreExceeds(lim: Limits, times: seq<int>, now: int, k: int)
    requires 0 <= k < |times|
  {
    (|times| - k + 1) as real > lim.burst as real + lim.perSecond * (now - times[k]) as real / 1000.0
  }

  ghost predicate TooFast(lim: Limits, times: seq<int>, now: int) {
    exists k {:trigger OneMoreExceeds(lim, times, now, k)} :: 0 <= k < |times| && OneMoreExceeds(lim, times, now, k)
  }

  /** The bucket is short of a token exactly if one more admission would be too many for some stretch up to now. */
  lemma ShortOfATokenMeans(lim: Limits, s: IpState, times: seq<int>, now: int)
    requires lim.Valid() && Metered(lim, s, times) && now >= s.lastRefill
    ensures Refilled(lim, s, now).tokens < 1.0 <==> TooFast(lim, times, now)
  {
    var t := Refilled(lim, s, now);
    RefillKeepsMetered(lim, s, times, now);
    forall k | 0 <= k < |times|
      ensures Refill(lim, now - times[k]) == lim.perSecond * (now - times[k]) as real / 1000.0
    {
      RefillRate(lim, now - times[k]);
    }
    if k :| 0 <= k < |times| && OneMoreExceeds(lim, times, now, k) {
      assert PaidSince(lim, times, t.tokens, now, k);
    } else if t.tokens < 1.0 {
      var k :| 0 <= k < |times| && AllSpentSince(lim, times, t.tokens, now, k);
      assert OneMoreExceeds(lim, times, now, k);
    }
  }

  /** Between t1 and t2 an address is let in at most burst + rate * (t2 - t1) times. */
  lemma WindowBound(lim: Limits, times: seq<int>, t1: int, t2: int)
    requires lim.Valid() && AllSpaced(lim, times) && t1 <= t2
    ensures Admissions(times, t1, t2) as real <= lim.burst as real + lim.perSecond * (t2 - t1) as real / 1000.0
  {
    RefillBound(lim, times, t1, t2);
    RefillRate(lim, t2 - t1);
  }

  lemma RefillBound(lim: Limits, times: seq<int>, t1: int, t2: int)
    requires lim.Valid() && AllSpaced(lim, times) && t1 <= t2
    ensures Admissions(times, t1, t2) as real <= lim.burst as real + Refill(lim, t2 - t1)
  {
    var n := Admissions(times, t1, t2);
    RefillIsPositive(lim, t2 - t1);
    if n > 0 {
      assert Ascending(times) by {
        forall i, j | 0 <= i <= j < |times|
          ensures times[i] <= times[j]
        {
          assert Spaced(lim, times, i, j);
        }
      }
      var i := WindowIsASlice(times, t1, t2);
      assert Spaced(lim, times, i, i + n - 1);
      var inside := times[i + n - 1] - times[i];
      RefillAdds(lim, inside, t2 - t1 - inside);
      RefillIsPositive(lim, t2 - t1 - inside);
    }
  }
}
