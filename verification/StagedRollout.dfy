/**
 Rolling an update out to a percentage of a fleet, batch by batch, with a context that may end
 and a cancel flag that may be raised while it runs.
 */
module StagedRollout {
  import opened Wrappers

  // ------------------------------------------------------------------------ how many devices

  /** What the constructor and the setter store; the field can be set to any number as well. */
  function Clamp(percentage: int): (p: int)
    ensures 0 <= p <= 100
    ensures p <= percentage || p == 0
    ensures p >= percentage || p == 100
  {
    if percentage < 0 then 0 else if percentage > 100 then 100 else percentage
  }

  /** Division by 100 rounding toward zero. */
  function Hundredth(x: int): int {
    if x >= 0 then x / 100 else -((-x) / 100)
  }

  function TargetCount(devices: nat, percentage: int): int {
    var count := Hundredth(devices * percentage);
    if count == 0 && percentage > 0 && devices > 0 then 1 else count
  }

  /** The target of any percentage: exactly when it is not negative and when it lies in the fleet,
      what it is, and that it grows with the percentage and, unless that is negative, with the
      fleet. */
  lemma TargetIsShare(devices: nat, percentage: int, more: int, larger: nat)
    requires percentage <= more && devices <= larger
    ensures
      var t, x := TargetCount(devices, percentage), devices * percentage;
      && (t >= 0 <==> devices * -percentage < 100)
      && (t <= devices <==> devices * (percentage - 100) < 100)
      && (t == 0 <==> -100 < x <= 0)
      && (0 < x < 100 ==> t == 1)
      && (x <= 0 || x >= 100 ==> 100 * t - 100 < x < 100 * t + 100 && (x >= 0 ==> 100 * t <= x))
      && t <= TargetCount(devices, more)
      && (percentage >= 0 ==> t <= TargetCount(larger, percentage))
  {
    Products(devices, percentage, more, larger);
  }

  /** Within 0 to 100 the target lies in the fleet, is zero only when it has to be, and is
      everything at 100. */
  lemma ClampedTarget(devices: nat, percentage: int)
    requires 0 <= percentage <= 100
    ensures
      var t := TargetCount(devices, percentage);
      0 <= t <= devices && (t == 0 <==> devices == 0 || percentage == 0) && (percentage == 100 ==> t == devices)
  {
    Products(devices, 0, percentage, devices);
    Products(devices, percentage, 100, devices);
  }

  lemma Products(devices: nat, percentage: int, more: int, larger: nat)
    requires percentage <= more && devices <= larger
    ensures devices * percentage <= devices * more
    ensures percentage >= 0 ==> devices * percentage <= larger * percentage
    ensures devices * -percentage == -(devices * percentage)
    ensures devices * (percentage - 100) == devices * percentage - 100 * devices
  {
    assert devices * more == devices * percentage + devices * (more - percentage);
    assert larger * percentage == devices * percentage + (larger - devices) * percentage;
  }

  // -------------------------------------------------------------------------- which devices

  /** Exchange two places, as a shuffle does; a pair out of range does nothing. */
  function Exchange<T>(s: seq<T>, i: nat, j: nat): (r: seq<T>)
    ensures |r| == |s| && multiset(r) == multiset(s)
  {
    if i < |s| && j < |s| then s[i := s[j]][j := s[i]] else s
  }

  function Shuffle<T>(s: seq<T>, swaps: seq<(nat, nat)>): (r: seq<T>)
    ensures |r| == |s| && multiset(r) == multiset(s)
  {
    if swaps == [] then s
    else Exchange(Shuffle(s, swaps[..|swaps| - 1]), swaps[|swaps| - 1].0, swaps[|swaps| - 1].1)
  }

  /** None stands for the panic on a slice with a negative end. */
  function Select<T>(devices: seq<T>, percentage: int, swaps: seq<(nat, nat)>): Option<seq<T>> {
    var target := TargetCount(|devices|, percentage);
    if target >= |devices| then Some(devices)
    else if target < 0 then None
    else Some(Shuffle(devices, swaps)[..target])
  }

  /** Selecting panics exactly on a percentage so negative that the target is.  Otherwise, however
      the shuffle goes, the selection has the target size, or the fleet's if that is smaller, and
      takes no device more often than the fleet has it. */
  lemma SelectionIsPart<T>(devices: seq<T>, percentage: int, swaps: seq<(nat, nat)>)
    ensures
      var selected, target := Select(devices, percentage, swaps), TargetCount(|devices|, percentage);
      && (selected.None? <==> |devices| * -percentage >= 100)
      && (selected.Some? ==>
            && |selected.value| == (if target < |devices| then target else |devices|)
            && multiset(selected.value) <= multiset(devices))
  {
    TargetIsShare(|devices|, percentage, percentage, |devices|);
    var target, shuffled := TargetCount(|devices|, percentage), Shuffle(devices, swaps);
    if 0 <= target < |devices| {
      assert shuffled == shuffled[..target] + shuffled[target..];
    }
  }

  lemma CountSplit<T>(s: seq<T>, m: nat, x: T)
    requires m <= |s|
    ensures multiset(s)[x] == multiset(s[..m])[x] + multiset(s[m..])[x]
  {
    assert s == s[..m] + s[m..];
  }

  lemma PlacedNext<T>(s: seq<T>, order: seq<T>, m: nat, j: nat)
    requires |s| == |order| && m <= j < |s| && s[..m] == order[..m] && s[j] == order[m]
    ensures Exchange(s, m, j)[..m + 1] == order[..m + 1]
  {
    var placed := Exchange(s, m, j);
    assert placed[m] == order[m];
    forall i | 0 <= i < m ensures placed[i] == order[i] {
      assert s[..m][i] == order[..m][i];
    }
  }

  lemma StandsLater<T>(s: seq<T>, order: seq<T>, m: nat) returns (j: nat)
    requires |s| == |order| && multiset(s) == multiset(order) && m < |order| && s[..m] == order[..m]
    ensures m <= j < |s| && s[j] == order[m]
  {
    CountSplit(s, m, order[m]);
    CountSplit(order, m, order[m]);
    assert order[m..][0] == order[m] && order[m] in order[m..];
    assert multiset(s[m..])[order[m]] > 0 && order[m] in s[m..];
    var i :| 0 <= i < |s[m..]| && s[m..][i] == order[m];
    j := m + i;
  }

  lemma {:induction false} OrderReached<T>(s: seq<T>, order: seq<T>, k: nat) returns (swaps: seq<(nat, nat)>)
    requires |s| == |order| && multiset(s) == multiset(order) && k <= |order|
    ensures Shuffle(s, swaps)[..k] == order[..k]
  {
    if k == 0 {
      swaps := [];
    } else {
      var before := OrderReached(s, order, k - 1);
      var now := Shuffle(s, before);
      var j := StandsLater(now, order, k - 1);
      swaps := before + [(k - 1, j)];
      assert swaps[..|swaps| - 1] == before;
      PlacedNext(now, order, k - 1, j);
    }
  }

  /** Every order of the fleet is some shuffle's, so the devices that come first in any order of the
      fleet are some shuffle's selection. */
  lemma AnySelectionPossible<T>(devices: seq<T>, percentage: int, order: seq<T>) returns (swaps: seq<(nat, nat)>)
    requires |order| == |devices| && multiset(order) == multiset(devices)
    ensures Shuffle(devices, swaps) == order
    ensures
      var target := TargetCount(|devices|, percentage);
      0 <= target < |devices| ==> Select(devices, percentage, swaps) == Some(order[..target])
  {
    swaps := OrderReached(devices, order, |order|);
    assert Shuffle(devices, swaps)[..|order|] == Shuffle(devices, swaps) && order[..|order|] == order;
  }

  // ------------------------------------------------------------------------------- the loop

  /** What one turn of the loop finds: at its head whether the context has ended and the cancel
      flag is up, and after the batch whether the context ends during the delay. */
  datatype Turn = Turn(contextDone: bool, canceled: bool, endsInDelay: bool)

  datatype Ending = Empty | Completed | ContextEnded | Canceled

  /** The loop is at a position, has ended with some devices updated, or has panicked on a slice
      that ends before it begins. */
  datatype Loop = At(i: nat) | Ended(done: nat, ending: Ending) | Panicked

  /** Where the batch that begins at i ends; before i when the size is negative. */
  function BatchEnd(i: nat, size: int, n: nat): int {
    if i + size > n then n else i + size
  }

  /** One turn at position i of n devices.  Nothing checks the batch size. */
  function OneTurn(n: nat, i: nat, size: int, delay: int, turn: Turn): Loop {
    if i >= n then Ended(n, Completed)
    else if turn.contextDone then Ended(i, ContextEnded)
    else if turn.canceled then Ended(i, Canceled)
    else
      var end := BatchEnd(i, size, n);
      if end < i then Panicked
      else if end < n && delay > 0 && turn.endsInDelay then Ended(end, ContextEnded)
      else At(i + size)
  }

  /** The loop after k turns. */
  function Walk(n: nat, k: nat, size: int, delay: int, env: nat -> Turn): Loop {
    if k == 0 then At(0)
    else
      var before := Walk(n, k - 1, size, delay, env);
      if before.At? then OneTurn(n, before.i, size, delay, env(k - 1)) else before
  }

  /** The number of devices updated so far. */
  function Recorded(loop: Loop, n: nat): nat {
    match loop
    case At(i) => if i < n then i else n
    case Ended(done, _) => done
    case Panicked => 0
  }

  /** A loop that is over stays so. */
  lemma {:induction false} WalkStays(n: nat, k: nat, m: nat, size: int, delay: int, env: nat -> Turn)
    requires k <= m && !Walk(n, k, size, delay, env).At?
    ensures Walk(n, m, size, delay, env) == Walk(n, k, size, delay, env)
  {
    if k < m {
      WalkStays(n, k, m - 1, size, delay, env);
    }
  }

  lemma BoundAhead(n: nat, k: nat, bound: nat, size: int, delay: int, env: nat -> Turn)
    requires Walk(n, k, size, delay, env).At? && !Walk(n, bound, size, delay, env).At?
    ensures k < bound
  {
    if k >= bound {
      WalkStays(n, bound, k, size, delay, env);
    }
  }

  ghost predicate Halts(n: nat, size: int, delay: int, env: nat -> Turn) {
    exists k: nat :: !Walk(n, k, size, delay, env).At?
  }

  // ------------------------------------------------------------ positive sizes: whole batches

  function Product(k: nat, size: nat): nat {
    k * size
  }

  /** Something stops turn k, which is at position k * size, or the delay after its batch. */
  predicate Disturbed(n: nat, k: nat, size: nat, delay: int, env: nat -> Turn) {
    && Product(k, size) < n
    && (env(k).contextDone || env(k).canceled || (Product(k + 1, size) < n && delay > 0 && env(k).endsInDelay))
  }

  lemma NextProduct(k: nat, size: nat)
    ensures Product(k + 1, size) == Product(k, size) + size
  {
  }

  /** Undisturbed, the loop moves on by one batch a turn, and past the end it has completed. */
  lemma {:induction false} CalmWalk(n: nat, k: nat, size: nat, delay: int, env: nat -> Turn)
    requires size >= 1 && forall j: nat | j < k :: !Disturbed(n, j, size, delay, env)
    ensures
      var loop := Walk(n, k, size, delay, env);
      loop == At(Product(k, size)) || (loop == Ended(n, Completed) && k >= 1 && Product(k - 1, size) >= n)
  {
    if k > 0 {
      CalmWalk(n, k - 1, size, delay, env);
      NextProduct(k - 1, size);
      assert !Disturbed(n, k - 1, size, delay, env);
      if k > 1 {
        NextProduct(k - 2, size);
      }
    }
  }

  /** Turn k ended the loop: before its batch, by the context rather than the flag when both are up,
      or by the context in the delay after it. */
  predicate EndsAt(k: nat, size: nat, turn: Turn, loop: Loop) {
    loop == if turn.contextDone then Ended(Product(k, size), ContextEnded)
            else if turn.canceled then Ended(Product(k, size), Canceled)
            else Ended(Product(k + 1, size), ContextEnded)
  }

  /** The first disturbed turn ends the loop, before its batch or in the delay after it. */
  lemma DisturbedWalk(n: nat, k: nat, size: nat, delay: int, env: nat -> Turn)
    requires size >= 1 && Disturbed(n, k, size, delay, env)
    requires forall j: nat | j < k :: !Disturbed(n, j, size, delay, env)
    ensures
      var loop := Walk(n, k + 1, size, delay, env);
      EndsAt(k, size, env(k), loop)
  {
    CalmWalk(n, k, size, delay, env);
    NextProduct(k, size);
    if k > 0 {
      NextProduct(k - 1, size);
    }
  }

  lemma ProductReaches(n: nat, size: nat)
    requires size >= 1
    ensures Product(n, size) >= n
  {
    assert n * size == n + n * (size - 1);
  }

  /** The first disturbed turn before k, or k. */
  function FirstDisturbed(n: nat, k: nat, size: nat, delay: int, env: nat -> Turn): (j: nat)
    ensures j <= k && (j < k ==> Disturbed(n, j, size, delay, env))
    ensures forall i: nat | i < j :: !Disturbed(n, i, size, delay, env)
  {
    if k == 0 then 0
    else
      var j := FirstDisturbed(n, k - 1, size, delay, env);
      if j < k - 1 || Disturbed(n, j, size, delay, env) then j else k
  }

  /** The first disturbed turn ended the loop. */
  ghost predicate StoppedFirst(n: nat, size: nat, delay: int, env: nat -> Turn, loop: Loop) {
    exists k: nat ::
      && Disturbed(n, k, size, delay, env) && (forall j: nat | j < k :: !Disturbed(n, j, size, delay, env))
      && EndsAt(k, size, env(k), loop) && loop.done <= n
  }

  lemma StoppedAfterWhole(n: nat, size: nat, delay: int, env: nat -> Turn, loop: Loop) returns (m: nat)
    requires StoppedFirst(n, size, delay, env, loop)
    ensures loop.Ended? && loop.done == Product(m, size) <= n
  {
    var k: nat :| EndsAt(k, size, env(k), loop) && loop.done <= n;
    assert EndsAt(k, size, env(k), loop);
    if env(k).contextDone || env(k).canceled {
      m := k;
    } else {
      m := k + 1;
    }
  }

  /** With a positive batch size the loop ends after at most one turn per device and one more,
      and never panics.  It completes if and only if no turn is disturbed; then it has updated
      everything, and otherwise the whole batches before the first disturbance, which tells how it
      ends. */
  lemma CompletesIffUndisturbed(n: nat, size: nat, delay: int, env: nat -> Turn)
    requires size >= 1
    ensures
      var loop := Walk(n, n + 1, size, delay, env);
      && loop.Ended? && loop.ending != Empty
      && (loop.ending == Completed <==> forall k: nat :: !Disturbed(n, k, size, delay, env))
      && (loop.ending == Completed ==> loop.done == n)
      && (loop.ending != Completed ==> StoppedFirst(n, size, delay, env, loop))
  {
    var k := FirstDisturbed(n, n, size, delay, env);
    forall j: nat ensures Disturbed(n, j, size, delay, env) ==> j < n {
      ProductReaches(j, size);
    }
    if k < n {
      DisturbedWalk(n, k, size, delay, env);
      WalkStays(n, k + 1, n + 1, size, delay, env);
    } else {
      CalmWalk(n, n + 1, size, delay, env);
      ProductReaches(n, size);
      NextProduct(n, size);
      CalmWalk(n, n, size, delay, env);
      assert !Disturbed(n, n, size, delay, env);
    }
  }

  /** Once the context is over or the flag up at the head of turn k, no further batch begins,
      whatever comes later. */
  lemma CancelStopsNextBatch(n: nat, k: nat, m: nat, size: nat, delay: int, env: nat -> Turn)
    requires size >= 1 && (env(k).contextDone || env(k).canceled)
    ensures Recorded(Walk(n, m, size, delay, env), n) <= Product(k, size)
  {
    var first := FirstDisturbed(n, k, size, delay, env);
    if Product(k, size) >= n {
      RecordedBound(n, m, size, delay, env);
    } else if m <= first {
      CalmWalk(n, m, size, delay, env);
      ProductGrows(m, k, size);
      assert m >= 1 ==> Product(m - 1, size) <= Product(k, size) by {
        if m >= 1 {
          ProductGrows(m - 1, k, size);
        }
      }
    } else {
      assert Disturbed(n, first, size, delay, env);
      DisturbedWalk(n, first, size, delay, env);
      WalkStays(n, first + 1, m, size, delay, env);
      ProductGrows(first, k, size);
      if first < k {
        ProductGrows(first + 1, k, size);
      }
    }
  }

  lemma ProductGrows(j: nat, k: nat, size: nat)
    requires j <= k
    ensures Product(j, size) <= Product(k, size)
  {
    assert k * size == j * size + (k - j) * size;
  }

  lemma {:induction false} RecordedBound(n: nat, m: nat, size: int, delay: int, env: nat -> Turn)
    ensures Recorded(Walk(n, m, size, delay, env), n) <= n
  {
    if m > 0 {
      RecordedBound(n, m - 1, size, delay, env);
    }
  }

  // ---------------------------------------------------------------- every size, also the bad

  lemma PositiveSizeEnds(n: nat, size: nat, delay: int, env: nat -> Turn)
    requires size >= 1
    ensures Walk(n, n + 1, size, delay, env).Ended?
  {
    CompletesIffUndisturbed(n, size, delay, env);
  }

  /** What can make a turn stop a loop that makes no progress. */
  predicate Stops(turn: Turn, delay: int) {
    turn.contextDone || turn.canceled || (delay > 0 && turn.endsInDelay)
  }

  /** With batch size zero the loop stays at the first device and never updates one: it ends if
      and only if some turn finds the context over, then or in the delay, or the flag up. */
  lemma {:induction false} ZeroSizeWaits(n: nat, k: nat, delay: int, env: nat -> Turn)
    requires n > 0
    ensures
      var loop := Walk(n, k, 0, delay, env);
      && (loop == At(0) || (loop.Ended? && loop.done == 0 && loop.ending in {ContextEnded, Canceled}))
      && (loop.Ended? <==> exists j: nat :: j < k && Stops(env(j), delay))
  {
    if k > 0 {
      ZeroSizeWaits(n, k - 1, delay, env);
    }
  }

  /** With a negative one the first turn panics unless it finds a reason to stop. */
  lemma NegativeSizePanics(n: nat, k: nat, size: int, delay: int, env: nat -> Turn)
    requires n > 0 && size < 0 && k > 0
    ensures Walk(n, k, size, delay, env).Panicked? <==> !env(0).contextDone && !env(0).canceled
    ensures env(0).contextDone || env(0).canceled ==> Walk(n, k, size, delay, env).Ended?
  {
    assert Walk(n, 0, size, delay, env) == At(0);
    WalkStays(n, 1, k, size, delay, env);
  }

  /** The loop ends if and only if there is nothing to do, the batch size is not zero, or some
      turn stops it; and it panics exactly on a negative size that the first turn lets through. */
  lemma HaltsIff(n: nat, size: int, delay: int, env: nat -> Turn)
    ensures Halts(n, size, delay, env) <==> n == 0 || size != 0 || exists j: nat :: Stops(env(j), delay)
    ensures (exists k: nat :: Walk(n, k, size, delay, env).Panicked?) <==>
            n > 0 && size < 0 && !env(0).contextDone && !env(0).canceled
  {
    if n == 0 {
      assert Walk(n, 1, size, delay, env) == OneTurn(n, 0, size, delay, env(0));
      forall k: nat ensures !Walk(n, k, size, delay, env).Panicked? {
        if k > 0 {
          WalkStays(n, 1, k, size, delay, env);
        }
      }
    } else if size > 0 {
      PositiveSizeEnds(n, size, delay, env);
      forall k: nat ensures !Walk(n, k, size, delay, env).Panicked? {
        if Walk(n, k, size, delay, env).Panicked? {
          WalkStays(n, k, k + n + 1, size, delay, env);
          WalkStays(n, n + 1, k + n + 1, size, delay, env);
        }
      }
    } else if size < 0 {
      NegativeSizePanics(n, 1, size, delay, env);
      forall k: nat ensures Walk(n, k, size, delay, env).Panicked? ==> !env(0).contextDone && !env(0).canceled {
        if k > 0 {
          NegativeSizePanics(n, k, size, delay, env);
        }
      }
    } else {
      forall k: nat ensures !Walk(n, k, size, delay, env).Panicked? {
        ZeroSizeWaits(n, k, delay, env);
      }
      if j: nat :| Stops(env(j), delay) {
        ZeroSizeWaits(n, j + 1, delay, env);
      } else {
        forall k: nat ensures Walk(n, k, size, delay, env).At? {
          ZeroSizeWaits(n, k, delay, env);
        }
      }
    }
  }

  // ----------------------------------------------------------------------------- the results

  datatype UpdateResult<D> = UpdateResult(device: D, success: bool)

  function Outcomes<D>(selected: seq<D>, m: nat, ok: nat -> bool): (rs: seq<UpdateResult<D>>)
    requires m <= |selected|
    ensures |rs| == m
    ensures forall i | 0 <= i < m :: rs[i] == UpdateResult(selected[i], ok(i))
  {
    seq(m, i requires 0 <= i < m => UpdateResult(selected[i], ok(i)))
  }

  /** The selection from i on, cut into batches. */
  function Batches<T>(s: seq<T>, i: nat, size: nat): seq<seq<T>>
    requires size >= 1
    decreases |s| - i
  {
    if i >= |s| then [] else [s[i..BatchEnd(i, size, |s|)]] + Batches(s, i + size, size)
  }

  function Concat<T>(parts: seq<seq<T>>): seq<T> {
    if parts == [] then [] else parts[0] + Concat(parts[1..])
  }

  /** The batches are the selection cut up in order: none empty, all of the full size but
      perhaps the last. */
  lemma {:induction false} BatchesPartition<T>(s: seq<T>, i: nat, size: nat)
    requires size >= 1 && i <= |s|
    ensures Concat(Batches(s, i, size)) == s[i..]
    ensures forall k | 0 <= k < |Batches(s, i, size)| ::
              && 1 <= |Batches(s, i, size)[k]| <= size
              && (k < |Batches(s, i, size)| - 1 ==> |Batches(s, i, size)[k]| == size)
    decreases |s| - i
  {
    if i < |s| {
      var end := BatchEnd(i, size, |s|);
      assert s[i..] == s[i..end] + s[end..];
      if i + size <= |s| {
        BatchesPartition(s, i + size, size);
      } else {
        assert Batches(s, i + size, size) == [];
      }
    }
  }

  lemma OneBatchMore<T>(s: seq<T>, i: nat, m: nat, size: nat, end: nat)
    requires size >= 1 && m >= 1 && i + size <= end <= |s|
    requires m - 1 <= |Batches(s, i + size, size)|
    requires Concat(Batches(s, i + size, size)[..m - 1]) == s[i + size..end]
    ensures m <= |Batches(s, i, size)| && Concat(Batches(s, i, size)[..m]) == s[i..end]
  {
    var batches := Batches(s, i, size);
    assert batches == [s[i..i + size]] + Batches(s, i + size, size);
    assert batches[..m] == [batches[0]] + Batches(s, i + size, size)[..m - 1];
    assert s[i..end] == s[i..i + size] + s[i + size..end];
  }

  /** The first m batches are the selection up to position m * size. */
  lemma {:induction false} FirstBatches<T>(s: seq<T>, i: nat, m: nat, size: nat)
    requires size >= 1 && i + Product(m, size) <= |s|
    ensures m <= |Batches(s, i, size)|
    ensures Concat(Batches(s, i, size)[..m]) == s[i..i + Product(m, size)]
    decreases m
  {
    if m > 0 {
      NextProduct(m - 1, size);
      FirstBatches(s, i + size, m - 1, size);
      OneBatchMore(s, i, m, size, i + Product(m, size));
    }
  }

  /** The devices updated are those of the first batches, in order. */
  ghost predicate WholeBatches<D>(selected: seq<D>, done: nat, size: nat)
    requires size >= 1 && done <= |selected|
  {
    exists m: nat :: m <= |Batches(selected, 0, size)| && Concat(Batches(selected, 0, size)[..m]) == selected[..done]
  }

  /** The loop ended in the last of some turns. */
  ghost predicate EndsAfter(n: nat, turns: nat, size: int, delay: int, env: nat -> Turn, loop: Loop) {
    turns > 0 && Walk(n, turns - 1, size, delay, env).At? && Walk(n, turns, size, delay, env) == loop && !loop.At?
  }

  lemma AllIsWhole<D>(selected: seq<D>, size: nat)
    requires size >= 1
    ensures WholeBatches(selected, |selected|, size)
  {
    BatchesPartition(selected, 0, size);
    var batches := Batches(selected, 0, size);
    assert batches[..|batches|] == batches;
    assert selected[..|selected|] == selected[0..];
  }

  /** However a loop with a positive batch size ended, it updated whole batches, and all devices
      when it completed. */
  lemma EndIsWholeBatches<D>(selected: seq<D>, turns: nat, size: nat, delay: int, env: nat -> Turn, loop: Loop)
    requires size >= 1 && EndsAfter(|selected|, turns, size, delay, env, loop)
    ensures loop.Ended? && loop.done <= |selected| && WholeBatches(selected, loop.done, size)
    ensures loop.ending == Completed ==> loop.done == |selected|
  {
    var n := |selected|;
    CompletesIffUndisturbed(n, size, delay, env);
    var last := n + 1 + turns;
    WalkStays(n, n + 1, last, size, delay, env);
    WalkStays(n, turns, last, size, delay, env);
    if loop.ending == Completed {
      AllIsWhole(selected, size);
    } else {
      var m := StoppedAfterWhole(n, size, delay, env, loop);
      FirstBatches(selected, 0, m, size);
    }
  }

  // ----------------------------------------------------------------------------- the object

  datatype StartResult<D> = InProgress | Finished(results: seq<UpdateResult<D>>, ending: Ending) | SlicePanic

  datatype Status = Status(
    inProgress: bool, total: nat, target: int, completed: nat, successful: nat, failed: nat, percentage: int)

  function CountSuccess<D>(rs: seq<UpdateResult<D>>, success: bool): nat {
    if rs == [] then 0
    else CountSuccess(rs[..|rs| - 1], success) + if rs[|rs| - 1].success == success then 1 else 0
  }

  /** The count is that of the results with the success asked for. */
  lemma {:induction false} CountsResults<D>(rs: seq<UpdateResult<D>>, success: bool)
    ensures CountSuccess(rs, success) == |set i | 0 <= i < |rs| && rs[i].success == success|
  {
    if rs != [] {
      CountsResults(rs[..|rs| - 1], success);
      OneResultMore(rs, success);
    }
  }

  lemma OneResultMore<D>(rs: seq<UpdateResult<D>>, success: bool)
    requires rs != []
    ensures
      var n, init := |rs| - 1, rs[..|rs| - 1];
      |set i | 0 <= i < |rs| && rs[i].success == success|
      == |set i | 0 <= i < n && init[i].success == success| + if rs[n].success == success then 1 else 0
  {
    var n, init := |rs| - 1, rs[..|rs| - 1];
    var all := set i | 0 <= i < |rs| && rs[i].success == success;
    var before := set i | 0 <= i < n && init[i].success == success;
    if rs[n].success == success {
      assert all == before + {n} && n !in before;
    } else {
      assert all == before;
    }
  }

  lemma {:induction false} CountsSum<D>(rs: seq<UpdateResult<D>>)
    ensures CountSuccess(rs, true) + CountSuccess(rs, false) == |rs|
  {
    if rs != [] {
      CountsSum(rs[..|rs| - 1]);
    }
  }

  /** Update the devices of one batch, in order; ok says how each of the selection's updates
      goes. */
  method BatchUpdate<D>(selected: seq<D>, from: nat, to: nat, ok: nat -> bool) returns (results: seq<UpdateResult<D>>)
    requires from <= to <= |selected|
    ensures results == Outcomes(selected, to, ok)[from..]
  {
    results := [];
    for j := from to to
      invariant results == Outcomes(selected, to, ok)[from..j]
    {
      results := results + [UpdateResult(selected[j], ok(j))];
    }
  }

  class Rollout<D> {
    const devices: seq<D>
    var percentage: int
    var batchSize: int
    var delay: int
    var results: seq<UpdateResult<D>>
    var inProgress: bool
    var canceled: bool

    constructor (devices: seq<D>, percentage: int)
      ensures this.devices == devices && this.percentage == Clamp(percentage) && batchSize == 5 && delay == 30
      ensures results == [] && !inProgress && !canceled
    {
      this.devices := devices;
      this.percentage := Clamp(percentage);
      batchSize, delay := 5, 30;
      results := [];
      inProgress, canceled := false, false;
    }

    method SetPercentage(percentage: int)
      modifies this`percentage
      ensures this.percentage == Clamp(percentage)
    {
      this.percentage := Clamp(percentage);
    }

    method Cancel()
      modifies this`canceled
      ensures canceled
    {
      canceled := true;
    }

    /** A second start is refused and leaves the first alone.  Otherwise an earlier cancel is
        forgotten and the loop walks the selection turn by turn; `turns` counts the turns.  The
        results are those of the devices it counts, in order, and the flag is as the last turn
        found it. */
    method Start(swaps: seq<(nat, nat)>, env: nat -> Turn, ok: nat -> bool) returns (r: StartResult<D>, turns: nat)
      requires
        var selected := Select(devices, percentage, swaps);
        !inProgress && selected.Some? ==> Halts(|selected.value|, batchSize, delay, env)
      modifies this`results, this`inProgress, this`canceled
      ensures r.InProgress? <==> old(inProgress)
      ensures old(inProgress) ==> unchanged(this)
      ensures !old(inProgress) ==>
                var selected := Select(devices, percentage, swaps);
                && !inProgress
                && (selected.None? ==> r == SlicePanic && results == [] && !canceled)
                && (selected == Some([]) ==> r == Finished([], Empty) && results == [] && !canceled)
                && (selected.Some? && selected.value != [] ==> Ran(selected.value, turns, env, ok, r))
      ensures r.Finished? && r.ending in {Empty, Completed} ==>
                var target := TargetCount(|devices|, percentage);
                |results| == if target < |devices| then target else |devices|
    {
      turns := 0;
      if inProgress {
        return InProgress, turns;
      }
      inProgress, canceled, results := true, false, [];
      var selection := Select(devices, percentage, swaps);
      SelectionIsPart(devices, percentage, swaps);
      if selection.None? {
        inProgress := false;
        return SlicePanic, turns;
      }
      var selected := selection.value;
      if |selected| == 0 {
        inProgress := false;
        return Finished([], Empty), turns;
      }
      r, turns := RunBatches(selected, env, ok);
      inProgress := false;
    }

    /** What a run leaves behind. */
    ghost predicate Ran(selected: seq<D>, turns: nat, env: nat -> Turn, ok: nat -> bool, r: StartResult<D>)
      reads this
    {
      var n := |selected|;
      var loop := Walk(n, turns, batchSize, delay, env);
      && EndsAfter(n, turns, batchSize, delay, env, loop)
      && Tracks(selected, loop, env(turns - 1), ok)
      && (loop.Panicked? <==> r.SlicePanic?)
      && (loop.Ended? ==> r == Finished(results, loop.ending))
      && (loop.Ended? && batchSize >= 1 ==> WholeBatches(selected, |results|, batchSize))
    }

    /** The fields are as the loop is, and the flag as the last turn found it. */
    ghost predicate Tracks(selected: seq<D>, loop: Loop, turn: Turn, ok: nat -> bool)
      reads this
    {
      var n := |selected|;
      && canceled == turn.canceled
      && Recorded(loop, n) <= n && results == Outcomes(selected, Recorded(loop, n), ok)
      && (loop.At? ==> batchSize >= 0)
      && (loop.Ended? ==> loop.ending != Empty && (loop.ending == Completed ==> loop.done == n))
    }

    method RunBatches(selected: seq<D>, env: nat -> Turn, ok: nat -> bool) returns (r: StartResult<D>, turns: nat)
      requires selected != [] && results == [] && Halts(|selected|, batchSize, delay, env)
      modifies this`results, this`canceled
      ensures Ran(selected, turns, env, ok, r)
    {
      ghost var n := |selected|;
      ghost var bound: nat :| !Walk(n, bound, batchSize, delay, env).At?;
      BoundAhead(n, 0, bound, batchSize, delay, env);
      var loop := TakeTurn(selected, 0, env(0), ok);
      turns := 1;
      while loop.At?
        invariant turns > 0 && Walk(n, turns - 1, batchSize, delay, env).At?
        invariant Walk(n, turns, batchSize, delay, env) == loop
        invariant Tracks(selected, loop, env(turns - 1), ok)
        decreases bound - turns, loop.At?
      {
        BoundAhead(n, turns, bound, batchSize, delay, env);
        loop := TakeTurn(selected, loop.i, env(turns), ok);
        turns := turns + 1;
      }
      r := if loop.Panicked? then SlicePanic else Finished(results, loop.ending);
      if batchSize >= 1 {
        EndIsWholeBatches(selected, turns, batchSize, delay, env, loop);
      }
    }

    /** One turn of the loop, in the order of its checks. */
    method TakeTurn(selected: seq<D>, i: nat, turn: Turn, ok: nat -> bool) returns (loop: Loop)
      requires i > 0 ==> batchSize >= 0
      requires results == Outcomes(selected, Recorded(At(i), |selected|), ok)
      modifies this`results, this`canceled
      ensures loop == OneTurn(|selected|, i, batchSize, delay, turn)
      ensures Tracks(selected, loop, turn, ok)
    {
      canceled := turn.canceled;
      if i >= |selected| {
        return Ended(|selected|, Completed);
      }
      if turn.contextDone {
        return Ended(i, ContextEnded);
      }
      if turn.canceled {
        return Ended(i, Canceled);
      }
      var end := BatchEnd(i, batchSize, |selected|);
      if end < i {
        return Panicked;
      }
      var batchResults := BatchUpdate(selected, i, end, ok);
      results := results + batchResults;
      if end < |selected| && delay > 0 && turn.endsInDelay {
        return Ended(end, ContextEnded);
      }
      return At(i + batchSize);
    }

    /** At any moment successes and failures add up to the devices completed. */
    method GetStatus() returns (s: Status)
      ensures s.inProgress == inProgress && s.total == |devices| && s.percentage == percentage
      ensures s.target == TargetCount(|devices|, percentage)
      ensures s.completed == |results| == s.successful + s.failed
      ensures s.successful == CountSuccess(results, true)
    {
      var successful, failed := 0, 0;
      for i := 0 to |results|
        invariant successful == CountSuccess(results[..i], true)
        invariant failed == CountSuccess(results[..i], false)
      {
        assert results[..i + 1][..i] == results[..i];
        if results[i].success {
          successful := successful + 1;
        } else {
          failed := failed + 1;
        }
      }
      assert results[..|results|] == results;
      CountsSum(results);
      var target := TargetCount(|devices|, percentage);
      return Status(inProgress, |devices|, target, |results|, successful, failed, percentage);
    }
  }
}
