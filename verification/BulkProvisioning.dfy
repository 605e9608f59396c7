/**
 Bulk provisioning: a queueing caller, a pool of workers, a closer goroutine, and two
 buffered channels.  A step is one channel operation or one goroutine ending, so a run is a
 schedule of all the goroutines; the result of provisioning a device is arbitrary.
 */
module BulkProvisioning {
  import opened Wrappers

  // ------------------------------------------------------------------ target resolution

  datatype Profile<C, P> = Profile(config: Option<C>, options: Option<P>)
  datatype Target<C> = Target(address: string, config: Option<C>, profileName: string)

  /** The target names a profile that the registry has; `profiles` is None for a nil registry. */
  predicate HasProfile<C, P>(target: Target<C>, profiles: Option<map<string, Profile<C, P>>>) {
    target.profileName != "" && profiles.Some? && target.profileName in profiles.value
  }

  /** The configuration and options of a target. */
  function ResolveTargetConfig<C, P>(
    target: Target<C>, profiles: Option<map<string, Profile<C, P>>>, defaults: P): (r: (Option<C>, P))
    ensures target.config.Some? ==> r.0 == target.config
    ensures r.0.None? <==>
            target.config.None? && (HasProfile(target, profiles) ==> profiles.value[target.profileName].config.None?)
    ensures r.0.Some? ==> r.0 == target.config ||
                          (HasProfile(target, profiles) && r.0 == profiles.value[target.profileName].config)
    ensures HasProfile(target, profiles) && profiles.value[target.profileName].options.Some?
            ==> r.1 == profiles.value[target.profileName].options.value
    ensures !(HasProfile(target, profiles) && profiles.value[target.profileName].options.Some?) ==> r.1 == defaults
  {
    var found := if HasProfile(target, profiles) then Some(profiles.value[target.profileName]) else None;
    var config := if target.config.None? && found.Some? then found.value.config else target.config;
    var options := if found.Some? && found.value.options.Some? then found.value.options.value else defaults;
    (config, options)
  }

  // -------------------------------------------------------------------------- one device

  datatype Attempt = NoClient | Failed | Succeeded

  /** Try a device up to RetryCount + 1 times.  `attempt(i)` is what the i-th try would give
      and `cancelled(i)` whether the wait before it ends by cancellation. */
  method ProvisionWithRetry(retryCount: int, attempt: nat -> Attempt, cancelled: nat -> bool)
    returns (success: bool, tried: nat)
    ensures 1 <= tried <= (if retryCount < 0 then 0 else retryCount) + 1
    ensures forall i: nat | i + 1 < tried :: attempt(i) != Succeeded && !cancelled(i + 1)
    ensures success <==> attempt(tried - 1) == Succeeded
    ensures !success ==> tried == (if retryCount < 0 then 0 else retryCount) + 1 || cancelled(tried)
    ensures success <==>
            exists k: nat :: k <= (if retryCount < 0 then 0 else retryCount) && attempt(k) == Succeeded
                             && forall i: nat | 1 <= i <= k :: !cancelled(i)
  {
    var retries := if retryCount < 0 then 0 else retryCount;
    success, tried := false, 0;
    while tried <= retries
      invariant 0 <= tried <= retries + 1
      invariant forall i: nat | i < tried :: attempt(i) != Succeeded
      invariant forall i: nat | 1 <= i < tried :: !cancelled(i)
    {
      if tried > 0 && cancelled(tried) {
        return;
      }
      tried := tried + 1;
      if attempt(tried - 1) == Succeeded {
        success := true;
        return;
      }
    }
  }

  // ---------------------------------------------------------------------------- the pool

  datatype Worker = Idle | Busy(item: nat) | Exited

  datatype Report = Report(item: nat, success: bool)

  datatype Pool = Pool(
    runnable: seq<bool>,     // per target: a configuration was resolved
    outcome: nat -> bool,    // how provisioning a target, with its retries, ends
    workers: seq<Worker>,
    next: nat,               // how many targets the caller has queued
    work: seq<nat>, workClosed: bool,
    results: seq<Report>, resultsClosed: bool,
    collected: seq<Report>,
    finished: bool)
  {
    /** Both channels are made with one slot per target. */
    function Capacity(): nat { |runnable| }
  }

  datatype Step =
    | Queue
    | CloseWork
    | Take(w: nat)
    | Deliver(w: nat)
    | Exit(w: nat)
    | CloseResults
    | Collect
    | Finish

  /** What the next operation of a goroutine is, whether or not its channel lets it proceed. */
  predicate Wants(p: Pool, step: Step) {
    match step
    case Queue => p.next < |p.runnable|
    case CloseWork => p.next == |p.runnable| && !p.workClosed
    case Take(w) => w < |p.workers| && p.workers[w].Idle? && p.work != []
    case Deliver(w) => w < |p.workers| && p.workers[w].Busy?
    case Exit(w) => w < |p.workers| && p.workers[w].Idle? && p.workClosed && p.work == []
    case CloseResults => p.workClosed && !p.resultsClosed && forall x <- p.workers :: x.Exited?
    case Collect => p.workClosed && p.results != []
    case Finish => p.workClosed && p.results == [] && p.resultsClosed && !p.finished
  }

  /** A send waits for a free slot. */
  predicate Blocked(p: Pool, step: Step)
    requires Wants(p, step)
  {
    match step
    case Queue => if p.runnable[p.next] then |p.work| >= p.Capacity() else |p.results| >= p.Capacity()
    case Deliver(_) => |p.results| >= p.Capacity()
    case _ => false
  }

  /** A send on a closed channel panics. */
  predicate Panics(p: Pool, step: Step)
    requires Wants(p, step)
  {
    match step
    case Queue => if p.runnable[p.next] then p.workClosed else p.resultsClosed
    case Deliver(_) => p.resultsClosed
    case _ => false
  }

  predicate Enabled(p: Pool, step: Step) {
    Wants(p, step) && !Blocked(p, step) && !Panics(p, step)
  }

  /** What a worker reports about its target. */
  function Finished(p: Pool, w: nat): Report
    requires w < |p.workers| && p.workers[w].Busy?
  {
    Report(p.workers[w].item, p.outcome(p.workers[w].item))
  }

  function Apply(p: Pool, step: Step): Pool
    requires Enabled(p, step)
  {
    match step
    case Queue =>
      if p.runnable[p.next]
      then p.(work := p.work + [p.next], next := p.next + 1)
      else p.(results := p.results + [Report(p.next, false)], next := p.next + 1)
    case CloseWork => p.(workClosed := true)
    case Take(w) => p.(workers := p.workers[w := Busy(p.work[0])], work := p.work[1..])
    case Deliver(w) => p.(workers := p.workers[w := Idle], results := p.results + [Finished(p, w)])
    case Exit(w) => p.(workers := p.workers[w := Exited])
    case CloseResults => p.(resultsClosed := true)
    case Collect => p.(results := p.results[1..], collected := p.collected + [p.results[0]])
    case Finish => p.(finished := true)
  }

  /** The number of workers: at least one, at most one per target. */
  function WorkerCount(concurrency: int, n: nat): nat
    requires n > 0
  {
    var c := if concurrency <= 0 then 1 else concurrency;
    if c > n then n else c
  }

  function Init(runnable: seq<bool>, outcome: nat -> bool, concurrency: int): Pool
    requires runnable != []
  {
    Pool(runnable, outcome, seq(WorkerCount(concurrency, |runnable|), _ => Idle), 0, [], false, [], false, [], false)
  }

  // ------------------------------------------------------------------------ conservation

  ghost function Holds(x: Worker, i: nat): nat {
    if x == Busy(i) then 1 else 0
  }

  /** How many workers are busy with target i. */
  ghost function HeldCount(workers: seq<Worker>, i: nat): nat {
    if workers == [] then 0 else Holds(workers[0], i) + HeldCount(workers[1..], i)
  }

  ghost function InProgress(workers: seq<Worker>): nat {
    if workers == [] then 0 else (if workers[0].Busy? then 1 else 0) + InProgress(workers[1..])
  }

  /** How many reports are about target i. */
  ghost function ReportCount(rs: seq<Report>, i: nat): nat {
    if rs == [] then 0 else (if rs[0].item == i then 1 else 0) + ReportCount(rs[1..], i)
  }

  /** In how many places target i is now. */
  ghost function Places(p: Pool, i: nat): nat {
    multiset(p.work)[i] + HeldCount(p.workers, i) + ReportCount(p.results, i) + ReportCount(p.collected, i)
  }

  lemma {:induction false} WorkerUpdate(workers: seq<Worker>, w: nat, x: Worker, i: nat)
    requires w < |workers|
    ensures HeldCount(workers[w := x], i) + Holds(workers[w], i) == HeldCount(workers, i) + Holds(x, i)
    ensures InProgress(workers[w := x]) + (if workers[w].Busy? then 1 else 0)
         == InProgress(workers) + (if x.Busy? then 1 else 0)
  {
    var after := workers[w := x];
    if w == 0 {
      assert after[1..] == workers[1..];
    } else {
      assert after[1..] == workers[1..][w - 1 := x];
      WorkerUpdate(workers[1..], w - 1, x, i);
    }
  }

  lemma {:induction false} NobodyBusy(workers: seq<Worker>, i: nat)
    requires forall x <- workers :: !x.Busy?
    ensures HeldCount(workers, i) == 0 && InProgress(workers) == 0
  {
    if workers != [] {
      NobodyBusy(workers[1..], i);
    }
  }

  lemma {:induction false} InProgressBounds(workers: seq<Worker>)
    ensures InProgress(workers) <= |workers|
    ensures (exists x <- workers :: x.Busy?) ==> InProgress(workers) >= 1
  {
    if workers != [] {
      InProgressBounds(workers[1..]);
    }
  }

  lemma {:induction false} ReportAppend(rs: seq<Report>, r: Report, i: nat)
    ensures ReportCount(rs + [r], i) == ReportCount(rs, i) + if r.item == i then 1 else 0
  {
    if rs == [] {
      assert rs + [r] == [r];
    } else {
      assert (rs + [r])[1..] == rs[1..] + [r];
      ReportAppend(rs[1..], r, i);
    }
  }

  predicate Truthful(runnable: seq<bool>, outcome: nat -> bool, r: Report) {
    r.item < |runnable| && (r.success <==> runnable[r.item] && outcome(r.item))
  }

  /** Targets without configuration never reach a worker, and every report tells the truth: a
      success exactly for a target with a configuration whose provisioning ends well. */
  ghost predicate SkipsReported(p: Pool) {
    && (forall i <- p.work :: i < |p.runnable| && p.runnable[i])
    && (forall x <- p.workers :: x.Busy? ==> x.item < |p.runnable| && p.runnable[x.item])
    && (forall r <- p.results + p.collected :: Truthful(p.runnable, p.outcome, r))
  }

  /** Every queued target is in exactly one place. */
  ghost predicate Conserved(p: Pool) {
    && |p.work| + InProgress(p.workers) + |p.results| + |p.collected| == p.next <= |p.runnable|
    && (forall i: nat :: Places(p, i) == if i < p.next then 1 else 0)
  }

  ghost predicate Ordered(p: Pool) {
    && (p.workClosed ==> p.next == |p.runnable|)
    && (!p.workClosed ==> p.collected == [])
    && ((exists x <- p.workers :: x.Exited?) ==> p.workClosed && p.work == [])
    && (p.resultsClosed ==> p.workClosed && forall x <- p.workers :: x.Exited?)
    && (p.finished ==> p.resultsClosed && p.results == [])
  }

  ghost predicate Inv(p: Pool) {
    p.workers != [] && Conserved(p) && SkipsReported(p) && Ordered(p)
  }

  lemma InitInv(runnable: seq<bool>, outcome: nat -> bool, concurrency: int)
    requires runnable != []
    ensures Inv(Init(runnable, outcome, concurrency))
  {
    var p := Init(runnable, outcome, concurrency);
    forall i: nat ensures Places(p, i) == 0 {
      NobodyBusy(p.workers, i);
    }
    NobodyBusy(p.workers, 0);
  }

  /** No send ever finds its channel full or closed. */
  lemma SendsNeverBlock(p: Pool, step: Step)
    requires Inv(p) && Wants(p, step)
    ensures Enabled(p, step)
    ensures step.Queue? ==> |p.work| < |p.runnable| && !p.workClosed
    ensures step.Queue? || step.Deliver? ==> |p.results| < |p.runnable| && !p.resultsClosed
  {
    if step.Deliver? {
      assert p.workers[step.w] in p.workers;
      InProgressBounds(p.workers);
    }
  }

  lemma PlacesStep(p: Pool, step: Step, i: nat)
    requires Enabled(p, step)
    ensures Places(Apply(p, step), i) == Places(p, i) + if step.Queue? && i == p.next then 1 else 0
  {
    match step
    case Queue =>
      ReportAppend(p.results, Report(p.next, false), i);
    case Take(w) =>
      WorkerUpdate(p.workers, w, Busy(p.work[0]), i);
      HeadCount(p.work, i);
    case Deliver(w) =>
      WorkerUpdate(p.workers, w, Idle, i);
      ReportAppend(p.results, Finished(p, w), i);
    case Exit(w) =>
      WorkerUpdate(p.workers, w, Exited, i);
    case Collect =>
      ReportAppend(p.collected, p.results[0], i);
    case _ =>
  }

  lemma HeadCount(work: seq<nat>, i: nat)
    requires work != []
    ensures multiset(work)[i] == multiset(work[1..])[i] + Holds(Busy(work[0]), i)
  {
    assert work == [work[0]] + work[1..];
  }

  lemma ConservedStep(p: Pool, step: Step)
    requires Conserved(p) && Enabled(p, step)
    ensures Conserved(Apply(p, step))
  {
    forall i: nat ensures Places(Apply(p, step), i) == if i < Apply(p, step).next then 1 else 0 {
      PlacesStep(p, step, i);
    }
    match step
    case Take(w) => WorkerUpdate(p.workers, w, Busy(p.work[0]), 0);
    case Deliver(w) => WorkerUpdate(p.workers, w, Idle, 0);
    case Exit(w) => WorkerUpdate(p.workers, w, Exited, 0);
    case _ =>
  }

  lemma SkipsStep(p: Pool, step: Step)
    requires SkipsReported(p) && Enabled(p, step)
    ensures SkipsReported(Apply(p, step))
  {
    var p' := Apply(p, step);
    if step.Take? {
      assert p.work[0] in p.work;
      assert forall i <- p'.work :: i in p.work;
    }
    if step.Deliver? {
      assert p.workers[step.w] in p.workers;
    }
    assert forall x <- p'.workers :: x in p.workers || (step.Take? && x == Busy(p.work[0])) || !x.Busy?;
    forall r | r in p'.results + p'.collected
      ensures Truthful(p'.runnable, p'.outcome, r)
    {
      assert r in p.results + p.collected || step.Queue? || step.Deliver?;
    }
  }

  lemma OrderedStep(p: Pool, step: Step)
    requires Ordered(p) && p.next <= |p.runnable| && Enabled(p, step)
    ensures Ordered(Apply(p, step))
  {
    if step.Exit? || step.Take? || step.Deliver? {
      assert p.workers[step.w] in p.workers;
      var p' := Apply(p, step);
      assert forall x <- p'.workers :: x in p.workers || x == p'.workers[step.w];
    }
  }

  lemma StepInv(p: Pool, step: Step)
    requires Inv(p) && Enabled(p, step)
    ensures Inv(Apply(p, step))
  {
    ConservedStep(p, step);
    SkipsStep(p, step);
    OrderedStep(p, step);
  }

  // ----------------------------------------------------------- termination and progress

  ghost function StepsLeft(x: Worker): nat {
    match x case Idle => 1 case Busy(_) => 3 case Exited => 0
  }

  ghost function Busyness(workers: seq<Worker>): nat {
    if workers == [] then 0
    else StepsLeft(workers[0]) + Busyness(workers[1..])
  }

  /** Bounds the number of steps left. */
  ghost function Measure(p: Pool): int
  {
    4 * (|p.runnable| - p.next) + 3 * |p.work| + Busyness(p.workers) + |p.results|
    + (if p.workClosed then 0 else 1) + (if p.resultsClosed then 0 else 1) + (if p.finished then 0 else 1)
  }

  lemma {:induction false} BusynessUpdate(workers: seq<Worker>, w: nat, x: Worker)
    requires w < |workers|
    ensures Busyness(workers[w := x]) + StepsLeft(workers[w]) == Busyness(workers) + StepsLeft(x)
  {
    var after := workers[w := x];
    if w == 0 {
      assert after[1..] == workers[1..];
    } else {
      assert after[1..] == workers[1..][w - 1 := x];
      BusynessUpdate(workers[1..], w - 1, x);
    }
  }

  lemma StepDecreases(p: Pool, step: Step)
    requires Inv(p) && Enabled(p, step)
    ensures 0 <= Measure(Apply(p, step)) < Measure(p)
  {
    match step
    case Take(w) => BusynessUpdate(p.workers, w, Busy(p.work[0]));
    case Deliver(w) => BusynessUpdate(p.workers, w, Idle);
    case Exit(w) => BusynessUpdate(p.workers, w, Exited);
    case _ =>
  }

  /** Until the caller is done some goroutine can move: the pool never deadlocks. */
  lemma SomeoneCanMove(p: Pool) returns (step: Step)
    requires Inv(p) && !p.finished
    ensures Enabled(p, step)
  {
    if p.next < |p.runnable| {
      step := Queue;
    } else if !p.workClosed {
      step := CloseWork;
    } else if p.results != [] {
      step := Collect;
    } else if exists x <- p.workers :: !x.Exited? {
      var w: nat :| w < |p.workers| && !p.workers[w].Exited?;
      step := if p.workers[w].Busy? then Deliver(w) else if p.work != [] then Take(w) else Exit(w);
    } else {
      step := if p.resultsClosed then Finish else CloseResults;
    }
    SendsNeverBlock(p, step);
  }

  ghost predicate Reaches(p: Pool, steps: seq<Step>, q: Pool)
    decreases |steps|
  {
    if steps == [] then q == p
    else Enabled(p, steps[0]) && Reaches(Apply(p, steps[0]), steps[1..], q)
  }

  lemma {:induction false} RunInv(p: Pool, steps: seq<Step>, q: Pool)
    requires Inv(p) && Reaches(p, steps, q)
    ensures Inv(q) && q.runnable == p.runnable && q.outcome == p.outcome && |q.workers| == |p.workers|
    decreases |steps|
  {
    if steps != [] {
      StepInv(p, steps[0]);
      RunInv(Apply(p, steps[0]), steps[1..], q);
    }
  }

  lemma {:induction false} RunIsBounded(p: Pool, steps: seq<Step>, q: Pool)
    requires Inv(p) && Reaches(p, steps, q)
    ensures |steps| + Measure(q) <= Measure(p)
    decreases |steps|
  {
    if steps != [] {
      StepInv(p, steps[0]);
      StepDecreases(p, steps[0]);
      RunIsBounded(Apply(p, steps[0]), steps[1..], q);
    }
  }

  lemma {:induction false} BusynessOfIdle(n: nat)
    ensures Busyness(seq(n, _ => Idle)) == n
  {
    if n > 0 {
      assert seq(n, _ => Idle)[1..] == seq(n - 1, _ => Idle);
      BusynessOfIdle(n - 1);
    }
  }

  ghost function Successes(rs: seq<Report>): nat {
    if rs == [] then 0 else (if rs[0].success then 1 else 0) + Successes(rs[1..])
  }

  lemma {:induction false} SuccessesAppend(rs: seq<Report>, r: Report)
    ensures Successes(rs + [r]) == Successes(rs) + if r.success then 1 else 0
  {
    if rs == [] {
      assert rs + [r] == [r];
    } else {
      assert (rs + [r])[1..] == rs[1..] + [r];
      SuccessesAppend(rs[1..], r);
    }
  }

  /** One report per target, and each tells the truth. */
  ghost predicate ReportsOf(runnable: seq<bool>, outcome: nat -> bool, collected: seq<Report>) {
    && |collected| == |runnable|
    && (forall i: nat | i < |runnable| :: ReportCount(collected, i) == 1)
    && (forall r <- collected :: Truthful(runnable, outcome, r))
  }

  /** The theorem about every schedule: as many workers as asked for, but at least one and at most
      one per target, so never more devices in progress; a bounded number of steps; no blocked or
      panicking send; and at the end exactly one report per target, which tells the truth. */
  lemma EverySchedule(runnable: seq<bool>, outcome: nat -> bool, concurrency: int, steps: seq<Step>, q: Pool)
    requires runnable != [] && Reaches(Init(runnable, outcome, concurrency), steps, q)
    ensures
      var wanted, n := if concurrency < 1 then 1 else concurrency, |runnable|;
      && |q.workers| <= wanted && |q.workers| <= n && |q.workers| in {wanted, n}
      && InProgress(q.workers) <= |q.workers|
      && |steps| <= 4 * n + |q.workers| + 3
    ensures forall step | Wants(q, step) :: Enabled(q, step)
    ensures !q.finished ==> exists step :: Enabled(q, step)
    ensures q.finished ==> ReportsOf(runnable, outcome, q.collected)
  {
    var p := Init(runnable, outcome, concurrency);
    InitInv(runnable, outcome, concurrency);
    RunInv(p, steps, q);
    RunIsBounded(p, steps, q);
    BusynessOfIdle(|p.workers|);
    InProgressBounds(q.workers);
    forall step | Wants(q, step) ensures Enabled(q, step) {
      SendsNeverBlock(q, step);
    }
    if q.finished {
      AtTheEnd(q);
    } else {
      var step := SomeoneCanMove(q);
    }
  }

  lemma AtTheEnd(q: Pool)
    requires Inv(q) && q.finished
    ensures ReportsOf(q.runnable, q.outcome, q.collected)
  {
    assert q.workers[0] in q.workers;
    forall i: nat | i < |q.runnable| ensures ReportCount(q.collected, i) == 1 {
      assert Places(q, i) == 1;
      NobodyBusy(q.workers, i);
    }
    NobodyBusy(q.workers, 0);
    assert q.results + q.collected == q.collected;
  }

  // --------------------------------------------------- the counts depend on no schedule

  /** The targets with a configuration whose provisioning ends well. */
  function Good(runnable: seq<bool>, outcome: nat -> bool): nat -> bool {
    (i: nat) => i < |runnable| && runnable[i] && outcome(i)
  }

  function Count(good: nat -> bool, n: nat): nat {
    if n == 0 then 0 else Count(good, n - 1) + if good(n - 1) then 1 else 0
  }

  /** How many reports there are about the good targets below n. */
  ghost function GoodReports(rs: seq<Report>, good: nat -> bool, n: nat): nat {
    if n == 0 then 0 else GoodReports(rs, good, n - 1) + if good(n - 1) then ReportCount(rs, n - 1) else 0
  }

  lemma {:induction false} GoodReportsFirst(rs: seq<Report>, good: nat -> bool, n: nat)
    requires rs != []
    ensures GoodReports(rs, good, n) ==
            GoodReports(rs[1..], good, n) + if rs[0].item < n && good(rs[0].item) then 1 else 0
  {
    if n > 0 {
      GoodReportsFirst(rs, good, n - 1);
    }
  }

  lemma {:induction false} SuccessesAreGood(rs: seq<Report>, good: nat -> bool, n: nat)
    requires forall r <- rs :: r.item < n && (r.success <==> good(r.item))
    ensures Successes(rs) == GoodReports(rs, good, n)
    decreases |rs|
  {
    if rs == [] {
      NoReports(good, n);
    } else {
      assert rs[0] in rs;
      assert forall r <- rs[1..] :: r in rs;
      SuccessesAreGood(rs[1..], good, n);
      GoodReportsFirst(rs, good, n);
    }
  }

  lemma {:induction false} NoReports(good: nat -> bool, n: nat)
    ensures GoodReports([], good, n) == 0
  {
    if n > 0 {
      NoReports(good, n - 1);
    }
  }

  lemma {:induction false} OneReportEach(rs: seq<Report>, good: nat -> bool, n: nat)
    requires forall i: nat | i < n :: ReportCount(rs, i) == 1
    ensures GoodReports(rs, good, n) == Count(good, n)
  {
    if n > 0 {
      OneReportEach(rs, good, n - 1);
    }
  }

  /** Whatever the schedule, as many reports are successes as targets are provisioned. */
  lemma SuccessesCountTargets(runnable: seq<bool>, outcome: nat -> bool, collected: seq<Report>)
    requires ReportsOf(runnable, outcome, collected)
    ensures Successes(collected) == Count(Good(runnable, outcome), |runnable|)
  {
    var good := Good(runnable, outcome);
    SuccessesAreGood(collected, good, |runnable|);
    OneReportEach(collected, good, |runnable|);
  }

  // ------------------------------------------------------------------- the whole method

  datatype BulkResult = BulkResult(totalDevices: nat, successCount: nat, failureCount: nat, results: map<string, bool>)

  /** The entry for an address is what the last collected report of a target there says. */
  ghost predicate Backed(addresses: seq<string>, collected: seq<Report>, a: string, success: bool) {
    exists k: nat :: k < |collected| && LastAt(addresses, collected, a, k) && collected[k].success == success
  }

  ghost predicate LastAt(addresses: seq<string>, collected: seq<Report>, a: string, k: nat)
    requires k < |collected|
  {
    && collected[k].item < |addresses| && addresses[collected[k].item] == a
    && forall j | k < j < |collected| :: collected[j].item < |addresses| ==> addresses[collected[j].item] != a
  }

  /** The result counts and files exactly the reports collected so far. */
  ghost predicate Tallied(addresses: seq<string>, collected: seq<Report>, result: BulkResult) {
    && (forall r <- collected :: r.item < |addresses| && addresses[r.item] in result.results)
    && result.successCount == Successes(collected)
    && result.successCount + result.failureCount == |collected|
    && (forall a <- result.results :: Backed(addresses, collected, a, result.results[a]))
  }

  /** The body of the collecting loop. */
  method Record(addresses: seq<string>, ghost collected: seq<Report>, r: Report, result: BulkResult)
    returns (result': BulkResult)
    requires Tallied(addresses, collected, result) && r.item < |addresses|
    ensures Tallied(addresses, collected + [r], result') && result'.totalDevices == result.totalDevices
  {
    result' := result.(results := result.results[addresses[r.item] := r.success]);
    if r.success {
      result' := result'.(successCount := result'.successCount + 1);
    } else {
      result' := result'.(failureCount := result'.failureCount + 1);
    }
    SuccessesAppend(collected, r);
    forall a | a in result'.results ensures Backed(addresses, collected + [r], a, result'.results[a]) {
      if a == addresses[r.item] {
        assert LastAt(addresses, collected + [r], a, |collected|);
      } else {
        assert Backed(addresses, collected, a, result.results[a]);
        var k: nat :| k < |collected| && LastAt(addresses, collected, a, k)
                      && collected[k].success == result.results[a];
        assert LastAt(addresses, collected + [r], a, k);
      }
    }
  }

  /** An arbitrary scheduler: any goroutine that can move may be the one that does. */
  method Schedule(p: Pool) returns (step: Step)
    requires Inv(p) && !p.finished
    ensures Enabled(p, step)
  {
    ghost var someStep := SomeoneCanMove(p);
    if {
      case p.next < |p.runnable| => step := Queue;
      case Wants(p, CloseWork) => step := CloseWork;
      case exists w: nat | w < |p.workers| :: Wants(p, Take(w)) =>
        var w: nat :| w < |p.workers| && Wants(p, Take(w));
        step := Take(w);
      case exists w: nat | w < |p.workers| :: p.workers[w].Busy? =>
        var w: nat :| w < |p.workers| && p.workers[w].Busy?;
        step := Deliver(w);
      case exists w: nat | w < |p.workers| :: Wants(p, Exit(w)) =>
        var w: nat :| w < |p.workers| && Wants(p, Exit(w));
        step := Exit(w);
      case Wants(p, CloseResults) => step := CloseResults;
      case Wants(p, Collect) => step := Collect;
      case Wants(p, Finish) => step := Finish;
    }
    SendsNeverBlock(p, step);
  }

  /** Run the pool under an arbitrary schedule. */
  method RunPool(runnable: seq<bool>, outcome: nat -> bool, addresses: seq<string>, concurrency: int)
    returns (result: BulkResult, ghost collected: seq<Report>)
    requires runnable != [] && |addresses| == |runnable|
    ensures result.totalDevices == |runnable|
    ensures Tallied(addresses, collected, result)
    ensures ReportsOf(runnable, outcome, collected)
  {
    result := BulkResult(|runnable|, 0, 0, map[]);
    var p := Init(runnable, outcome, concurrency);
    InitInv(runnable, outcome, concurrency);
    while !p.finished
      invariant Inv(p) && p.runnable == runnable && p.outcome == outcome
      invariant Tallied(addresses, p.collected, result) && result.totalDevices == |runnable|
      decreases Measure(p)
    {
      var step := Schedule(p);
      StepInv(p, step);
      StepDecreases(p, step);
      if step == Collect {
        assert p.results[0] in p.results + p.collected;
        result := Record(addresses, p.collected, p.results[0], result);
      }
      p := Apply(p, step);
    }
    AtTheEnd(p);
    collected := p.collected;
  }

  function Addresses<C>(targets: seq<Target<C>>): (addresses: seq<string>)
    ensures |addresses| == |targets| && forall i | 0 <= i < |targets| :: addresses[i] == targets[i].address
  {
    seq(|targets|, i requires 0 <= i < |targets| => targets[i].address)
  }

  /** Which targets have a configuration: their own or their profile's. */
  function Runnable<C, P>(
    targets: seq<Target<C>>, profiles: Option<map<string, Profile<C, P>>>, defaults: P): (runnable: seq<bool>)
    ensures |runnable| == |targets|
    ensures forall i | 0 <= i < |targets| ::
              runnable[i] <==>
              targets[i].config.Some?
              || (HasProfile(targets[i], profiles) && profiles.value[targets[i].profileName].config.Some?)
  {
    seq(|targets|, i requires 0 <= i < |targets| => ResolveTargetConfig(targets[i], profiles, defaults).0.Some?)
  }

  /** What the whole method promises of its result and of the reports behind it: the success count
      is that of the targets with a configuration whose provisioning ends well, the entry for an
      address is the last report of a target there. */
  ghost predicate Provisioned(
    runnable: seq<bool>, outcome: nat -> bool, addresses: seq<string>, collected: seq<Report>, result: BulkResult)
  {
    && ReportsOf(runnable, outcome, collected)
    && Tallied(addresses, collected, result)
    && result.totalDevices == |runnable| == result.successCount + result.failureCount
    && result.successCount == Count(Good(runnable, outcome), |runnable|)
    && (forall a :: a in result.results <==> a in addresses)
    && (result.failureCount == 0 ==> forall a <- result.results :: result.results[a])
  }

  const NO_FACTORY := "client factory not configured"

  /** Without a client factory nothing is tried and the call fails.  `outcome` says how
      provisioning each target, with its retries, ends. */
  method ProvisionBulk<C(0), P(0)>(
    hasFactory: bool, outcome: nat -> bool,
    targets: seq<Target<C>>, profiles: Option<map<string, Profile<C, P>>>, defaults: P, concurrency: int)
    returns (r: Result<BulkResult, string>, ghost collected: seq<Report>)
    ensures !hasFactory ==> r == Err(NO_FACTORY) && collected == []
    ensures hasFactory ==>
              && r.Ok?
              && Provisioned(
                   Runnable(targets, profiles, defaults), outcome, Addresses(targets), collected, r.value)
  {
    if !hasFactory {
      return Err(NO_FACTORY), [];
    }
    var runnable, addresses := Runnable(targets, profiles, defaults), Addresses(targets);
    var result := BulkResult(0, 0, 0, map[]);
    if |targets| == 0 {
      return Ok(result), [];
    }
    result, collected := RunPool(runnable, outcome, addresses, concurrency);
    ResultCovers(runnable, outcome, addresses, collected, result);
    r := Ok(result);
  }

  lemma ResultCovers(
    runnable: seq<bool>, outcome: nat -> bool, addresses: seq<string>, collected: seq<Report>, result: BulkResult)
    requires |addresses| == |runnable|
    requires Tallied(addresses, collected, result) && ReportsOf(runnable, outcome, collected)
    requires result.totalDevices == |runnable|
    ensures Provisioned(runnable, outcome, addresses, collected, result)
  {
    AllSucceeded(collected);
    SuccessesCountTargets(runnable, outcome, collected);
    forall a | a in addresses ensures a in result.results {
      var i: nat :| i < |addresses| && addresses[i] == a;
      var r := ReportOf(collected, i);
    }
    forall a | a in result.results
      ensures a in addresses
      ensures result.failureCount == 0 ==> result.results[a]
    {
      assert Backed(addresses, collected, a, result.results[a]);
      var k: nat :| k < |collected| && LastAt(addresses, collected, a, k) && collected[k].success == result.results[a];
      assert collected[k] in collected;
    }
  }

  lemma {:induction false} ReportOf(rs: seq<Report>, i: nat) returns (r: Report)
    requires ReportCount(rs, i) > 0
    ensures r in rs && r.item == i
  {
    if rs[0].item == i {
      r := rs[0];
    } else {
      r := ReportOf(rs[1..], i);
    }
  }

  lemma {:induction false} AllSucceeded(rs: seq<Report>)
    ensures Successes(rs) <= |rs|
    ensures Successes(rs) == |rs| ==> forall r <- rs :: r.success
  {
    if rs != [] {
      AllSucceeded(rs[1..]);
    }
  }
}
