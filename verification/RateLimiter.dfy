/**
 The cloud client's rate limiter.  Times are integer ticks; the clock never goes back, and a
 timer started for d ticks fires no earlier than d ticks later.
 */
module RateLimiter {

  const SECOND := 1_000_000_000  // ticks are nanoseconds

  /** What one `wait` meets: the clock on entry, whether the context ends while it sleeps, and
      the clock when it returns. */
  datatype Visit = Visit(entered: int, cancelled: bool, left: int)

  datatype Outcome = Granted(at: int) | Cancelled

  class Limiter {
    var lastCall: int
    const interval: nat

    /** `interval` is one second divided by the rate; a rate that is not positive counts as one
        request per second. */
    constructor (requestsPerSecond: real, zeroTime: int)
      ensures lastCall == zeroTime && interval == Interval(requestsPerSecond)
    {
      var rate := if requestsPerSecond <= 0.0 then 1.0 else requestsPerSecond;
      interval := (SECOND as real / rate).Floor;
      lastCall := zeroTime;
    }

    /** The visit says what the clock and the context do; it is possible when time does not run
        backwards and a sleep that is not cancelled lasts long enough. */
    method Wait(v: Visit) returns (r: Outcome)
      requires Possible(lastCall, interval, v)
      modifies this
      ensures r == WaitOutcome(old(lastCall), interval, v)
      ensures lastCall == (if r.Granted? then r.at else old(lastCall))
    {
      var now := v.entered;
      var nextCall := lastCall + interval;
      if now < nextCall {
        if v.cancelled {
          return Cancelled;
        }
      }
      lastCall := v.left;
      r := Granted(lastCall);
    }
  }

  function Interval(requestsPerSecond: real): (i: nat)
    ensures requestsPerSecond <= 0.0 ==> i == SECOND
    ensures requestsPerSecond > 0.0 ==> i as real * requestsPerSecond <= SECOND as real
    ensures requestsPerSecond > 0.0 ==> (i + 1) as real * requestsPerSecond > SECOND as real
  {
    var rate := if requestsPerSecond <= 0.0 then 1.0 else requestsPerSecond;
    var q := SECOND as real / rate;
    assert q * rate == SECOND as real;
    q.Floor
  }

  predicate Possible(lastCall: int, interval: nat, v: Visit) {
    v.entered <= v.left && (v.entered < lastCall + interval && !v.cancelled ==> v.left >= lastCall + interval)
  }

  /** A visit is possible exactly when it returns no earlier than it came and, unless its context
      ends, no earlier than an interval after the last call. */
  lemma PossibleFrom(lastCall: int, interval: nat, v: Visit)
    ensures
      var due := lastCall + interval;
      Possible(lastCall, interval, v) <==> v.left >= (if v.cancelled || due <= v.entered then v.entered else due)
  {
  }

  function WaitOutcome(lastCall: int, interval: nat, v: Visit): Outcome {
    if v.entered < lastCall + interval && v.cancelled then Cancelled else Granted(v.left)
  }

  // --------------------------------------------------------------------------- all runs

  /** A run of visits, one after the other under the limiter's lock. */
  predicate Run(lastCall: int, interval: nat, visits: seq<Visit>)
    decreases |visits|
  {
    visits == [] ||
    (&& Possible(lastCall, interval, visits[0])
     && (|visits| > 1 ==> visits[0].left <= visits[1].entered)
     && Run(After(lastCall, interval, visits[0]), interval, visits[1..]))
  }

  function After(lastCall: int, interval: nat, v: Visit): int {
    match WaitOutcome(lastCall, interval, v)
    case Granted(at) => at
    case Cancelled => lastCall
  }

  /** The times of the grants of a run. */
  function Grants(lastCall: int, interval: nat, visits: seq<Visit>): seq<int>
    decreases |visits|
  {
    if visits == [] then []
    else
      (match WaitOutcome(lastCall, interval, visits[0])
       case Granted(at) => [at]
       case Cancelled => [])
      + Grants(After(lastCall, interval, visits[0]), interval, visits[1..])
  }

  /** Grants are at least an interval after the last call and after each other. */
  lemma {:induction false} GrantsAreSpaced(lastCall: int, interval: nat, visits: seq<Visit>)
    requires Run(lastCall, interval, visits)
    ensures
      var g := Grants(lastCall, interval, visits);
      && (g != [] ==> g[0] >= lastCall + interval)
      && forall i | 0 <= i < |g| - 1 :: g[i + 1] - g[i] >= interval
    decreases |visits|
  {
    if visits != [] {
      GrantsAreSpaced(After(lastCall, interval, visits[0]), interval, visits[1..]);
    }
  }

  /** So any two grants are apart by as many intervals as they are grants apart. */
  lemma {:induction false} GrantsApart(lastCall: int, interval: nat, visits: seq<Visit>, i: nat, j: nat)
    requires Run(lastCall, interval, visits) && i <= j < |Grants(lastCall, interval, visits)|
    ensures
      var g := Grants(lastCall, interval, visits);
      g[j] - g[i] >= (j - i) * interval
    decreases j
  {
    if i < j {
      GrantsAreSpaced(lastCall, interval, visits);
      GrantsApart(lastCall, interval, visits, i, j - 1);
      assert (j - i) * interval == (j - 1 - i) * interval + interval;
    }
  }

  /** How many times of a list lie in the window of w ticks from t on. */
  function InWindow(g: seq<int>, t: int, w: nat): nat {
    if g == [] then 0 else (if t <= g[0] <= t + w then 1 else 0) + InWindow(g[1..], t, w)
  }

  /** It is at least the length of any stretch of the list that lies in the window. */
  lemma {:induction false} WindowCounts(g: seq<int>, t: int, w: nat, i: nat, j: nat)
    requires i <= j <= |g| && forall k | i <= k < j :: t <= g[k] <= t + w
    ensures InWindow(g, t, w) >= j - i
  {
    if i > 0 {
      WindowCounts(g[1..], t, w, i - 1, j - 1);
    } else if j > 0 {
      WindowCounts(g[1..], t, w, 0, j - 1);
    }
  }

  lemma {:induction false} SpacedInWindow(g: seq<int>, interval: nat, t: int, w: nat)
    requires forall k | 0 <= k < |g| - 1 :: g[k + 1] - g[k] >= interval
    ensures
      var c := InWindow(g, t, w);
      c > 0 ==> (c - 1) * interval <= t + w - (if g[0] < t then t else g[0])
  {
    if g != [] {
      SpacedInWindow(g[1..], interval, t, w);
      var c := InWindow(g[1..], t, w);
      if c > 0 {
        assert (c - 1) * interval >= 0;
        assert c * interval == (c - 1) * interval + interval;
      }
    }
  }

  /** Any window of w ticks, wherever it starts, contains at most w / interval + 1 grants. */
  lemma WindowBound(lastCall: int, interval: nat, visits: seq<Visit>, t: int, w: nat)
    requires Run(lastCall, interval, visits) && interval > 0
    ensures InWindow(Grants(lastCall, interval, visits), t, w) <= w / interval + 1
  {
    GrantsAreSpaced(lastCall, interval, visits);
    SpacedCount(Grants(lastCall, interval, visits), interval, t, w);
  }

  lemma SpacedCount(g: seq<int>, interval: nat, t: int, w: nat)
    requires interval > 0 && forall k | 0 <= k < |g| - 1 :: g[k + 1] - g[k] >= interval
    ensures InWindow(g, t, w) <= w / interval + 1
  {
    SpacedInWindow(g, interval, t, w);
    var c := InWindow(g, t, w);
    if c > 0 {
      Quotient(c - 1, interval, w);
    }
  }

  lemma Quotient(k: nat, m: nat, w: nat)
    requires m > 0 && k * m <= w
    ensures k <= w / m
  {
    assert w < (w / m + 1) * m;
    Monotone(w / m + 1, k, m);
  }

  lemma Monotone(a: nat, b: nat, m: nat)
    ensures a <= b ==> a * m <= b * m
  {
  }

  /** What each visit of a run gets. */
  function Outcomes(lastCall: int, interval: nat, visits: seq<Visit>): (os: seq<Outcome>)
    ensures |os| == |visits|
    decreases |visits|
  {
    if visits == [] then []
    else
      [WaitOutcome(lastCall, interval, visits[0])]
      + Outcomes(After(lastCall, interval, visits[0]), interval, visits[1..])
  }

  /** Every wait whose context does not end is granted, when it returns, and so is every one that
      comes no earlier than an interval after the last grant; all others are cancelled. */
  lemma {:induction false} UncancelledIsGranted(lastCall: int, interval: nat, visits: seq<Visit>, k: nat)
    requires k < |visits|
    ensures
      var os := Outcomes(lastCall, interval, visits);
      var due := LastGrant(lastCall, os[..k]) + interval;
      && (!visits[k].cancelled || visits[k].entered >= due ==> os[k] == Granted(visits[k].left))
      && (visits[k].cancelled && visits[k].entered < due ==> os[k] == Cancelled)
    decreases |visits|
  {
    if k > 0 {
      var after := After(lastCall, interval, visits[0]);
      UncancelledIsGranted(after, interval, visits[1..], k - 1);
      var os, rest := Outcomes(lastCall, interval, visits), Outcomes(after, interval, visits[1..]);
      assert os[..k] == [os[0]] + rest[..k - 1];
      LastGrantFirst(lastCall, os[0], rest[..k - 1]);
    }
  }

  /** The time of the last grant, or of the last call before. */
  function LastGrant(lastCall: int, os: seq<Outcome>): int {
    if os == [] then lastCall
    else if os[|os| - 1].Granted? then os[|os| - 1].at
    else LastGrant(lastCall, os[..|os| - 1])
  }

  lemma {:induction false} LastGrantFirst(lastCall: int, o: Outcome, os: seq<Outcome>)
    ensures LastGrant(lastCall, [o] + os) == LastGrant(if o.Granted? then o.at else lastCall, os)
  {
    if os != [] {
      assert ([o] + os)[..|os|] == [o] + os[..|os| - 1];
      LastGrantFirst(lastCall, o, os[..|os| - 1]);
    }
  }

  /** The sequence without its k-th element. */
  function Omit<T>(s: seq<T>, k: nat): (r: seq<T>)
    requires k < |s|
    ensures |r| == |s| - 1
  {
    s[..k] + s[k + 1..]
  }

  lemma OmitLater<T>(s: seq<T>, k: nat)
    requires 1 <= k < |s|
    ensures Omit(s, k) == [s[0]] + Omit(s[1..], k - 1)
  {
  }

  /** Cancelled visits leave no trace: without one the rest is a run still, in which every other
      visit gets what it got, at the same time. */
  lemma {:induction false} CancelledLeavesNoTrace(lastCall: int, interval: nat, visits: seq<Visit>, k: nat)
    requires Run(lastCall, interval, visits) && k < |visits| && Outcomes(lastCall, interval, visits)[k] == Cancelled
    ensures Run(lastCall, interval, Omit(visits, k))
    ensures Outcomes(lastCall, interval, Omit(visits, k)) == Omit(Outcomes(lastCall, interval, visits), k)
    ensures Grants(lastCall, interval, Omit(visits, k)) == Grants(lastCall, interval, visits)
    decreases |visits|
  {
    var rest := visits[1..];
    if k == 0 {
      assert Omit(visits, 0) == rest;
      assert Omit(Outcomes(lastCall, interval, visits), 0) == Outcomes(lastCall, interval, rest);
    } else {
      var after := After(lastCall, interval, visits[0]);
      CancelledLeavesNoTrace(after, interval, rest, k - 1);
      OmitLater(visits, k);
      OmitLater(Outcomes(lastCall, interval, visits), k);
      assert Omit(visits, k)[1..] == Omit(rest, k - 1);
    }
  }
}
