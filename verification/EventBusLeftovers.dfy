/**
 What outlives a removal: handlers that are called after their subscription is gone, and
 subscriptions that a registry's UnsubscribeAll leaves behind.
 */
module EventBusLeftovers {
  import opened Wrappers
  import opened EventBus
  import opened EventBusRuns

  // --------------------------------------------------------------- the calls of one publish

  lemma {:induction false} MatchingFirst<E, F>(subs: seq<Sub<F>>, e: E, matches: (F, E) -> bool)
    requires subs != []
    ensures Matching(subs, e, matches) ==
            (if matches(subs[0].filter, e) then [subs[0].id] else []) + Matching(subs[1..], e, matches)
    decreases |subs|
  {
    if |subs| > 1 {
      var n := |subs| - 1;
      MatchingFirst(subs[..n], e, matches);
      assert subs[1..][..n - 1] == subs[..n][1..];
    }
  }

  /** The handlers task t still has to call. */
  function Left<E, F>(task: Task<E, F>, matches: (F, E) -> bool): seq<nat> {
    if task.Copied? then Matching(task.subs, task.e, matches) else []
  }

  /** The handler the task's next section calls, if any. */
  function NextCall<E, F>(task: Task<E, F>, matches: (F, E) -> bool): seq<nat> {
    if task.Copied? && task.subs != [] && matches(task.subs[0].filter, task.e) then [task.subs[0].id] else []
  }

  function CalledAt<E, F>(s: State<E, F>, step: Step<E, F>, t: nat, matches: (F, E) -> bool): seq<nat> {
    if step.Advance? && step.task == t < |s.tasks| then NextCall(s.tasks[t], matches) else []
  }

  function CalledBy<E, F>(
    s: State<E, F>, steps: seq<Step<E, F>>, t: nat, matches: (F, E) -> bool): seq<nat>
    decreases |steps|
  {
    if steps == [] then []
    else CalledAt(s, steps[0], t, matches) + CalledBy(Apply(s, steps[0]), steps[1..], t, matches)
  }

  ghost predicate Delivering<E, F>(s: State<E, F>, t: nat) {
    t < |s.tasks| && (s.tasks[t].Copied? || s.tasks[t].Done?)
  }

  lemma CallStep<E, F>(s: State<E, F>, step: Step<E, F>, t: nat, matches: (F, E) -> bool)
    requires Delivering(s, t)
    ensures Delivering(Apply(s, step), t)
    ensures CalledAt(s, step, t, matches) + Left(Apply(s, step).tasks[t], matches) == Left(s.tasks[t], matches)
  {
    var task, s' := s.tasks[t], Apply(s, step);
    if step == Advance(t) {
      assert s' == Moved(s, t);
      if task.Copied? && task.subs != [] {
        MatchingFirst(task.subs, task.e, matches);
      }
    } else {
      assert s'.tasks[t] == task;
    }
  }

  /** Whatever comes between, subscribing, unsubscribing and closing by the handlers included, a
      publish calls the matching handlers of its copy, each once, in order, and no other. */
  lemma {:induction false} CallsAreOfTheCopy<E, F>(
    s: State<E, F>, steps: seq<Step<E, F>>, t: nat, matches: (F, E) -> bool)
    requires Delivering(s, t)
    ensures Delivering(Run(s, steps), t)
    ensures CalledBy(s, steps, t, matches) + Left(Run(s, steps).tasks[t], matches) == Left(s.tasks[t], matches)
    decreases |steps|
  {
    if steps != [] {
      var s1 := Apply(s, steps[0]);
      CallStep(s, steps[0], t, matches);
      CallsAreOfTheCopy(s1, steps[1..], t, matches);
      Regroup(CalledAt(s, steps[0], t, matches), CalledBy(s1, steps[1..], t, matches),
              Left(Run(s1, steps[1..]).tasks[t], matches));
    }
  }

  lemma Regroup(a: seq<nat>, b: seq<nat>, c: seq<nat>)
    ensures (a + b) + c == a + (b + c)
  {
  }

  // ------------------------------------------------------------------- calls after a removal

  /** The step calls the handler of an id, whose filter lets the event through. */
  predicate Calls<E, F>(s: State<E, F>, step: Step<E, F>, matches: (F, E) -> bool, id: nat) {
    step.Advance? && step.task < |s.tasks| && NextCall(s.tasks[step.task], matches) == [id]
  }

  /** A publish is under way whose copy still has the id. */
  ghost predicate CopyHolds<E, F>(task: Task<E, F>, matches: (F, E) -> bool, id: nat) {
    task.Copied? && exists i :: 0 <= i < |task.subs| && task.subs[i].id == id && matches(task.subs[i].filter, task.e)
  }

  ghost predicate SomeCopyHolds<E, F>(s: State<E, F>, matches: (F, E) -> bool, id: nat) {
    exists t :: 0 <= t < |s.tasks| && CopyHolds(s.tasks[t], matches, id)
  }

  ghost predicate MayStillBeCalled<E(!new), F(!new)>(s: State<E, F>, matches: (F, E) -> bool, id: nat) {
    exists steps: seq<Step<E, F>>, step: Step<E, F> :: Calls(Run(s, steps), step, matches, id)
  }

  /** With no copy under way no step makes one, once the id is out of the list for good. */
  lemma NoCopyStep<E, F>(s: State<E, F>, step: Step<E, F>, matches: (F, E) -> bool, id: nat)
    requires Dead(s, id) && !SomeCopyHolds(s, matches, id)
    ensures !SomeCopyHolds(Apply(s, step), matches, id)
  {
    var s' := Apply(s, step);
    forall t | 0 <= t < |s'.tasks| ensures !CopyHolds(s'.tasks[t], matches, id) {
      if step == Advance(t) && t < |s.tasks| {
        NoCopyNext(s, s.tasks[t], matches, id);
      } else if t < |s.tasks| {
        assert s'.tasks[t] == s.tasks[t];
      }
    }
  }

  lemma NoCopyNext<E, F>(s: State<E, F>, task: Task<E, F>, matches: (F, E) -> bool, id: nat)
    requires Dead(s, id) && !CopyHolds(task, matches, id)
    ensures !CopyHolds(Next(s, task), matches, id)
  {
    if task.Recorded? {
      forall i | 0 <= i < |s.bus.subs| ensures s.bus.subs[i].id != id {
        assert s.bus.subs[i] in s.bus.subs;
      }
    } else if task.Copied? && task.subs != [] {
      forall i | 0 <= i < |task.subs[1..]|
        ensures !(task.subs[1..][i].id == id && matches(task.subs[1..][i].filter, task.e))
      {
        assert task.subs[1..][i] == task.subs[i + 1];
      }
    }
  }

  lemma {:induction false} NoCopyRuns<E, F>(
    s: State<E, F>, steps: seq<Step<E, F>>, matches: (F, E) -> bool, id: nat)
    requires Consistent(s) && Dead(s, id) && !SomeCopyHolds(s, matches, id)
    ensures !SomeCopyHolds(Run(s, steps), matches, id)
    decreases |steps|
  {
    if steps != [] {
      NoCopyStep(s, steps[0], matches, id);
      DeadStep(s, steps[0], id);
      RunStaysConsistent(s, [steps[0]]);
      RunOne(s, steps[0]);
      NoCopyRuns(Apply(s, steps[0]), steps[1..], matches, id);
    }
  }

  /** A copy that has the id gets to it. */
  lemma {:induction false} CopyGetsThere<E, F>(s: State<E, F>, t: nat, matches: (F, E) -> bool, id: nat)
    returns (steps: seq<Step<E, F>>)
    requires t < |s.tasks| && CopyHolds(s.tasks[t], matches, id)
    ensures Calls(Run(s, steps), Advance(t), matches, id)
    decreases |s.tasks[t].subs|
  {
    var task := s.tasks[t];
    if NextCall(task, matches) == [id] {
      steps := [];
    } else {
      var i :| 0 <= i < |task.subs| && task.subs[i].id == id && matches(task.subs[i].filter, task.e);
      assert task.subs[1..][i - 1] == task.subs[i];
      var rest := CopyGetsThere(Apply(s, Advance(t)), t, matches, id);
      steps := [Advance(t)] + rest;
      assert steps[1..] == rest;
    }
  }

  /** A handler whose subscription was removed, whether by Unsubscribe or by Close, can be called
      again if and only if some publish under way copied the list before and has not reached it. */
  lemma CalledAfterRemovalIff<E(!new), F(!new)>(s: State<E, F>, matches: (F, E) -> bool, id: nat)
    requires Consistent(s) && Dead(s, id)
    ensures MayStillBeCalled(s, matches, id) <==> SomeCopyHolds(s, matches, id)
  {
    if SomeCopyHolds(s, matches, id) {
      var t :| 0 <= t < |s.tasks| && CopyHolds(s.tasks[t], matches, id);
      var steps := CopyGetsThere(s, t, matches, id);
    } else {
      forall steps: seq<Step<E, F>>, step: Step<E, F> ensures !Calls(Run(s, steps), step, matches, id) {
        NoCopyRuns(s, steps, matches, id);
      }
    }
  }

  /** Ids are out of the list for good once they are unsubscribed, and all of them once the list is
      empty and nobody has an id that is not in it yet. */
  lemma RemovedIsDead<E, F>(s: State<E, F>, id: nat)
    requires Consistent(s) && id in Ids(s.bus.subs)
    ensures Dead(Apply(s, UnsubscribeId(id)), id)
  {
    RemovalRemovesOne(s.bus.subs, id);
    var i :| 0 <= i < |s.bus.subs| && Ids(s.bus.subs)[i] == id;
    assert s.bus.subs[i] in s.bus.subs;
    forall t | 0 <= t < |s.tasks| && s.tasks[t].Drawn? ensures s.tasks[t].sub.id != id {
      assert DrawnOk(s, s.tasks[t].sub.id);
    }
  }

  lemma EmptyIsDead<E, F>(s: State<E, F>, id: nat)
    requires NobodyLate(s) && Empty(s.bus) && id <= s.bus.lastId
    ensures Dead(s, id)
  {
    forall t | 0 <= t < |s.tasks| ensures !s.tasks[t].Drawn? {
      assert !Late(s.bus.historySize, s.tasks[t]);
    }
  }

  /** A publish copies the list, its subscription is removed, and its handler is called. */
  lemma HandlerRunsAfterUnsubscribe()
    ensures
      var steps := [BeginSubscribe(5, None), Advance(0), Advance(0)] + [BeginPublish(7), Advance(1), Advance(1)];
      var s := Apply(Run<nat, nat>(Init(0), steps), UnsubscribeId(1));
      s.bus.subs == [] && Calls(s, Advance(1), (_, _) => true, 1)
  {
    var s0: State<nat, nat> := Init(0);
    var first := [BeginSubscribe(5, None), Advance(0), Advance(0)];
    RunConcat(s0, first, [BeginPublish(7), Advance(1), Advance(1)]);
    RunThree(s0, BeginSubscribe(5, None), Advance(0), Advance(0));
    var begun := Apply(s0, BeginSubscribe(5, None));
    assert begun.tasks == [Subscribing(5, None)];
    RunThree(Run(s0, first), BeginPublish(7), Advance(1), Advance(1));
    CopyThenRemove(Run(s0, first));
  }

  lemma CopyThenRemove(s: State<nat, nat>)
    requires s.tasks == [Done] && s.bus.subs == [Sub(1, 5)] && !s.bus.closed
    ensures
      var copied := Apply(Apply(Apply(s, BeginPublish(7)), Advance(1)), Advance(1));
      var s' := Apply(copied, UnsubscribeId(1));
      s'.bus.subs == [] && Calls(s', Advance(1), (_, _) => true, 1)
  {
    var s1 := Apply(s, BeginPublish(7));
    assert s1.tasks == [Done, Publishing(7)];
    var s2 := Apply(s1, Advance(1));
    assert s2.tasks == [Done, Recorded(7)];
    var s3 := Apply(s2, Advance(1));
    assert s3.tasks == [Done, Copied(7, [Sub(1, 5)])];
    assert Ids(s3.bus.subs) == [1];
  }

  // --------------------------------------------------------- what an UnsubscribeAll leaves

  /** The subscription was made through the registry. */
  predicate MadeBy<E, F>(s: State<E, F>, x: Sub<F>, r: nat) {
    x.id < |s.owners| && s.owners[x.id] == Some(r)
  }

  ghost predicate NoneLeft<E, F>(s: State<E, F>, r: nat) {
    forall x <- s.bus.subs :: !MadeBy(s, x, r)
  }

  /** The task will still put a subscription of the registry into the list. */
  predicate Registers<E, F>(task: Task<E, F>, r: nat) {
    (task.Subscribing? || task.Drawn?) && task.owner == Some(r)
  }

  ghost predicate NobodyRegisters<E, F>(s: State<E, F>, r: nat) {
    forall t | 0 <= t < |s.tasks| :: !Registers(s.tasks[t], r)
  }

  /** No registration of the registry is on its way to the list, and it tracks all it has there. */
  ghost predicate Settled<E, F>(s: State<E, F>, r: nat)
    requires r < |s.tracked|
  {
    NobodyRegisters(s, r) && forall x <- s.bus.subs :: MadeBy(s, x, r) ==> x.id in s.tracked[r]
  }

  predicate BeginsRegistration<E, F>(step: Step<E, F>, r: nat) {
    step.BeginSubscribe? && step.owner == Some(r)
  }

  ghost predicate NoNewRegistration<E, F>(steps: seq<Step<E, F>>, r: nat) {
    forall i | 0 <= i < |steps| :: !BeginsRegistration(steps[i], r)
  }

  /** Whenever task t has finished, no subscription of the registry is in the list, short of
      registrations that begin later. */
  ghost predicate LeavesNone<E(!new), F(!new)>(s: State<E, F>, t: nat, r: nat) {
    forall steps: seq<Step<E, F>> {:trigger Run(s, steps)} ::
      NoNewRegistration(steps, r) ==>
        t < |Run(s, steps).tasks| && (Run(s, steps).tasks[t].Done? ==> NoneLeft(Run(s, steps), r))
  }

  /** Task t is dropping all that is left of the registry. */
  ghost predicate ClearInv<E, F>(s: State<E, F>, t: nat, r: nat) {
    && NobodyRegisters(s, r) && t < |s.tasks| && (s.tasks[t].Dropping? || s.tasks[t].Done?)
    && forall x <- s.bus.subs :: MadeBy(s, x, r) ==> s.tasks[t].Dropping? && x.id in s.tasks[t].ids
  }

  lemma ClearStep<E, F>(s: State<E, F>, step: Step<E, F>, t: nat, r: nat)
    requires Consistent(s) && ClearInv(s, t, r) && !BeginsRegistration(step, r)
    ensures ClearInv(Apply(s, step), t, r)
  {
    var s' := Apply(s, step);
    if step.Advance? {
      if step.task < |s.tasks| {
        ClearMove(s, step.task, t, r);
      }
    } else {
      if step.UnsubscribeId? {
        RemovalRemovesOne(s.bus.subs, step.id);
      }
      assert s'.tasks[t] == s.tasks[t] && s'.owners == s.owners;
    }
  }

  lemma ClearMove<E, F>(s: State<E, F>, u: nat, t: nat, r: nat)
    requires Consistent(s) && ClearInv(s, t, r) && u < |s.tasks|
    ensures ClearInv(Moved(s, u), t, r)
  {
    var s', task := Moved(s, u), s.tasks[u];
    assert !Registers(task, r) && !Registers(Next(s, task), r) && TaskOwned(s, task);
    forall x | x in s'.bus.subs && MadeBy(s', x, r)
      ensures s'.tasks[t].Dropping? && x.id in s'.tasks[t].ids
    {
      if task.Drawn? {
        assert x != task.sub;
      } else if task.Subscribing? {
        assert x in s.bus.subs && x.id <= s.bus.lastId;
        assert MadeBy(s, x, r);
      } else {
        SectionWithoutIds(s, task);
        assert MadeBy(s, x, r);
      }
      if u == t {
        RemovalRemovesOne(s.bus.subs, task.ids[0]);
        assert x.id in task.ids[1..];
      }
    }
  }

  lemma {:induction false} ClearRuns<E, F>(s: State<E, F>, steps: seq<Step<E, F>>, t: nat, r: nat)
    requires Consistent(s) && ClearInv(s, t, r) && NoNewRegistration(steps, r)
    ensures ClearInv(Run(s, steps), t, r)
    decreases |steps|
  {
    if steps != [] {
      assert !BeginsRegistration(steps[0], r);
      ClearStep(s, steps[0], t, r);
      RunStaysConsistent(s, [steps[0]]);
      RunOne(s, steps[0]);
      assert forall i | 0 <= i < |steps[1..]| :: steps[1..][i] == steps[i + 1];
      ClearRuns(Apply(s, steps[0]), steps[1..], t, r);
    }
  }

  function Drain<E, F>(t: nat, n: nat): (steps: seq<Step<E, F>>)
    ensures forall i | 0 <= i < |steps| :: steps[i] == Advance(t)
  {
    if n == 0 then [] else [Advance(t)] + Drain(t, n - 1)
  }

  /** The task is done, all other tasks and the owners are as before, and x, if it was in the list
      with none of the ids, still is. */
  ghost predicate Drained<E, F>(s: State<E, F>, s': State<E, F>, t: nat, x: Sub<F>, ids: seq<nat>)
    requires t < |s.tasks|
  {
    && s'.tasks == s.tasks[t := Done] && s'.owners == s.owners && s'.bus.lastId == s.bus.lastId
    && (x in s.bus.subs && x.id !in ids ==> x in s'.bus.subs)
  }

  lemma DrainOne<E, F>(s: State<E, F>, s': State<E, F>, t: nat, x: Sub<F>)
    requires Numbered(s) && t < |s.tasks| && s.tasks[t].Dropping? && s.tasks[t].ids != []
    requires Drained(Moved(s, t), s', t, x, s.tasks[t].ids[1..])
    ensures Drained(s, s', t, x, s.tasks[t].ids)
  {
    var ids := s.tasks[t].ids;
    RemovalRemovesOne(s.bus.subs, ids[0]);
    assert ids == [ids[0]] + ids[1..];
    assert s.tasks[t := Next(s, s.tasks[t])][t := Done] == s.tasks[t := Done];
  }

  lemma DrainLast<E, F>(s: State<E, F>, t: nat, x: Sub<F>)
    requires t < |s.tasks| && s.tasks[t].Dropping? && s.tasks[t].ids == []
    ensures Drained(s, Moved(s, t), t, x, [])
  {
  }

  lemma RunFirst<E, F>(s: State<E, F>, t: nat, steps: seq<Step<E, F>>)
    requires t < |s.tasks|
    ensures Run(s, [Advance(t)] + steps) == Run(Moved(s, t), steps)
  {
    assert ([Advance(t)] + steps)[1..] == steps;
  }

  /** Left alone, the task removes what it has and finishes. */
  lemma {:induction false} Drains<E, F>(s: State<E, F>, t: nat, x: Sub<F>, n: nat)
    requires Numbered(s) && t < |s.tasks| && s.tasks[t].Dropping? && n == |s.tasks[t].ids|
    ensures Drained(s, Run(s, Drain(t, n + 1)), t, x, s.tasks[t].ids)
    decreases n
  {
    RunFirst(s, t, Drain(t, n));
    if n == 0 {
      DrainLast(s, t, x);
    } else {
      NumberedMove(s, t);
      Drains(Moved(s, t), t, x, n - 1);
      DrainOne(s, Run(Moved(s, t), Drain(t, n)), t, x);
    }
  }

  lemma {:induction false} UnsubscribeEachFirst<E, F>(b: Bus<E, F>, ids: seq<nat>)
    requires ids != []
    ensures UnsubscribeEach(b, ids) == UnsubscribeEach(Unsubscribe(b, ids[0]), ids[1..])
    decreases |ids|
  {
    var n := |ids| - 1;
    if n > 0 {
      UnsubscribeEachFirst(b, ids[..n]);
      assert ids[1..][..n - 1] == ids[..n][1..];
    }
  }

  lemma DropMoves<E, F>(s: State<E, F>, t: nat)
    requires t < |s.tasks| && s.tasks[t].Dropping? && s.tasks[t].ids != []
    ensures Moved(s, t).bus == Unsubscribe(s.bus, s.tasks[t].ids[0])
    ensures |Moved(s, t).tasks| == |s.tasks| && Moved(s, t).tracked == s.tracked
    ensures Moved(s, t).tasks[t] == Dropping(s.tasks[t].registry, s.tasks[t].ids[1..])
  {
  }

  lemma {:induction false} DrainUnsubscribes<E, F>(s: State<E, F>, t: nat, n: nat)
    requires t < |s.tasks| && s.tasks[t].Dropping? && n == |s.tasks[t].ids|
    ensures Run(s, Drain(t, n + 1)).bus == UnsubscribeEach(s.bus, s.tasks[t].ids)
    ensures Run(s, Drain(t, n + 1)).tracked == s.tracked
    decreases n
  {
    RunFirst(s, t, Drain(t, n));
    if n > 0 {
      UnsubscribeEachFirst(s.bus, s.tasks[t].ids);
      DropMoves(s, t);
      DrainUnsubscribes(Moved(s, t), t, n - 1);
    }
  }

  /** With nothing in between, the sections of an UnsubscribeAll make up the whole operation. */
  lemma UndisturbedUnsubscribeAll<E, F>(s: State<E, F>, r: nat)
    requires r < |s.tracked|
    ensures
      var s' := Run(Apply(s, UnsubscribeAll(r)), Drain(|s.tasks|, |s.tracked[r]| + 1));
      s'.bus == UnsubscribeEach(s.bus, s.tracked[r]) && s'.tracked == s.tracked[r := []]
  {
    var s1 := Apply(s, UnsubscribeAll(r));
    assert s1.tasks[|s.tasks|] == Dropping(r, s.tracked[r]);
    DrainUnsubscribes(s1, |s.tasks|, |s.tracked[r]|);
  }

  /** A run of UnsubscribeAll that ends with a subscription of the registry in the list. */
  ghost predicate LeavesOne<E, F>(s: State<E, F>, r: nat, steps: seq<Step<E, F>>) {
    var s' := Run(Apply(s, UnsubscribeAll(r)), steps);
    NoNewRegistration(steps, r) && |s.tasks| < |s'.tasks| && s'.tasks[|s.tasks|].Done? && !NoneLeft(s', r)
  }

  lemma RegistrationLeavesOne<E, F>(s: State<E, F>, r: nat, u: nat) returns (steps: seq<Step<E, F>>)
    requires Consistent(s) && r < |s.tracked| && u < |s.tasks| && Registers(s.tasks[u], r)
    ensures LeavesOne(s, r, steps)
  {
    var t, s1 := |s.tasks|, Apply(s, UnsubscribeAll(r));
    NumberedStep(s, UnsubscribeAll(r));
    assert s1.tasks[t] == Dropping(r, s.tracked[r]);
    steps := Drain(t, |s.tracked[r]| + 1);
    var any := Sub(0, if s.tasks[u].Drawn? then s.tasks[u].sub.filter else s.tasks[u].filter);
    Drains(s1, t, any, |s.tracked[r]|);
    var s2 := Run(s1, steps);
    assert s2.tasks[u] == s.tasks[u] && TaskOwned(s, s.tasks[u]);
    RegistrationArrives(s2, u, r);
    RunConcat(s1, steps, FillSteps(s2, u));
    steps := steps + FillSteps(s2, u);
  }

  lemma UntrackedLeavesOne<E, F>(s: State<E, F>, r: nat, x: Sub<F>) returns (steps: seq<Step<E, F>>)
    requires Consistent(s) && r < |s.tracked|
    requires x in s.bus.subs && MadeBy(s, x, r) && x.id !in s.tracked[r]
    ensures LeavesOne(s, r, steps)
  {
    var t, s1 := |s.tasks|, Apply(s, UnsubscribeAll(r));
    NumberedStep(s, UnsubscribeAll(r));
    assert s1.tasks[t] == Dropping(r, s.tracked[r]);
    steps := Drain(t, |s.tracked[r]| + 1);
    Drains(s1, t, x, |s.tracked[r]|);
    assert MadeBy(Run(s1, steps), x, r);
  }

  /** With a registration on its way, or a subscription in the list that it does not track, a run
      of UnsubscribeAll leaves a subscription of the registry. */
  lemma UnsettledLeavesOne<E, F>(s: State<E, F>, r: nat) returns (steps: seq<Step<E, F>>)
    requires Consistent(s) && r < |s.tracked| && !Settled(s, r)
    ensures LeavesOne(s, r, steps)
  {
    if u :| 0 <= u < |s.tasks| && Registers(s.tasks[u], r) {
      steps := RegistrationLeavesOne(s, r, u);
    } else {
      var x :| x in s.bus.subs && MadeBy(s, x, r) && x.id !in s.tracked[r];
      steps := UntrackedLeavesOne(s, r, x);
    }
  }

  lemma RegistrationArrives<E, F>(s: State<E, F>, u: nat, r: nat)
    requires u < |s.tasks| && Registers(s.tasks[u], r) && |s.owners| == s.bus.lastId + 1
    requires s.tasks[u].Drawn? ==> MadeBy(s, s.tasks[u].sub, r)
    ensures
      var s' := Run(s, FillSteps(s, u));
      && !NoneLeft(s', r)
      && |s'.tasks| == |s.tasks| && forall v | 0 <= v < |s.tasks| && v != u :: s'.tasks[v] == s.tasks[v]
  {
    LateFills(s, u);
    if s.tasks[u].Drawn? {
      RunOne(s, Advance(u));
      DrawnArrives(s, u, r);
    } else {
      FillTwice(s, u);
      DrawnArrives(Moved(s, u), u, r);
    }
  }

  lemma FillTwice<E, F>(s: State<E, F>, u: nat)
    requires u < |s.tasks| && s.tasks[u].Subscribing?
    ensures Run(s, FillSteps(s, u)) == Moved(Moved(s, u), u)
  {
    var last: seq<Step<E, F>> := [Advance(u)];
    RunFirst(s, u, last);
    assert FillSteps(s, u) == [Advance(u)] + last;
    assert last == [Advance(u)] + [];
    RunFirst(Moved(s, u), u, []);
  }

  lemma DrawnArrives<E, F>(s: State<E, F>, u: nat, r: nat)
    requires u < |s.tasks| && s.tasks[u].Drawn? && MadeBy(s, s.tasks[u].sub, r)
    ensures !NoneLeft(Moved(s, u), r)
  {
    var s', sub := Moved(s, u), s.tasks[u].sub;
    assert s'.bus.subs[|s.bus.subs|] == sub && MadeBy(s', sub, r);
  }

  /** UnsubscribeAll leaves no subscription of its registry, in any interleaving and short of
      registrations that begin later, if and only if none is on its way to the list and none is in
      the list that the registry does not track. */
  lemma LeavesNoneIffSettled<E(!new), F(!new)>(s: State<E, F>, r: nat)
    requires Consistent(s) && r < |s.tracked|
    ensures LeavesNone(Apply(s, UnsubscribeAll(r)), |s.tasks|, r) <==> Settled(s, r)
  {
    var t, s1 := |s.tasks|, Apply(s, UnsubscribeAll(r));
    if Settled(s, r) {
      RunStaysConsistent(s, [UnsubscribeAll(r)]);
      RunOne(s, UnsubscribeAll(r));
      assert s1.tasks[t] == Dropping(r, s.tracked[r]);
      assert ClearInv(s1, t, r);
      forall steps: seq<Step<E, F>> | NoNewRegistration(steps, r)
        ensures t < |Run(s1, steps).tasks| && (Run(s1, steps).tasks[t].Done? ==> NoneLeft(Run(s1, steps), r))
      {
        ClearRuns(s1, steps, t, r);
      }
    } else {
      var steps := UnsettledLeavesOne(s, r);
      assert !NoneLeft(Run(s1, steps), r);
    }
  }

  /** The task is about to track the id for the registry, or to remove it. */
  predicate Carries<E, F>(task: Task<E, F>, id: nat, r: nat) {
    || (task.Tracking? && task.id == id && task.registry == r)
    || (task.Removing? && task.id == id && task.registry == r)
    || (task.Dropping? && id in task.ids && task.registry == r)
  }

  ghost predicate SomeCarries<E, F>(s: State<E, F>, id: nat, r: nat) {
    exists t :: 0 <= t < |s.tasks| && Carries(s.tasks[t], id, r)
  }

  /** Owners are registries, and what a registry has in the list it tracks, or a task is at it. */
  ghost predicate Accounted<E, F>(s: State<E, F>) {
    && (forall i | 0 <= i < |s.owners| :: ValidOwner(s, s.owners[i]))
    && forall r, x | 0 <= r < |s.tracked| && x in s.bus.subs && MadeBy(s, x, r) :: AccountedFor(s, x.id, r)
  }

  ghost predicate AccountedFor<E, F>(s: State<E, F>, id: nat, r: nat)
    requires 0 <= r < |s.tracked|
  {
    id in s.tracked[r] || SomeCarries(s, id, r)
  }

  lemma {:induction false} ForgetKeeps(ids: seq<nat>, id: nat, other: nat)
    requires other in ids && other != id
    ensures other in Forget(ids, id)
  {
    var i, k :| i == Position(ids, id) && 0 <= k < |ids| && ids[k] == other;
    if i < |ids| {
      assert Forget(ids, id)[if k == |ids| - 1 then i else k] == other;
    }
  }

  lemma KeepsAccount<E, F>(s: State<E, F>, step: Step<E, F>, x: Sub<F>, r: nat)
    requires Consistent(s) && r < |s.tracked| && x in s.bus.subs && MadeBy(s, x, r) && AccountedFor(s, x.id, r)
    requires x in Apply(s, step).bus.subs && !step.Advance?
    ensures r < |Apply(s, step).tracked| && AccountedFor(Apply(s, step), x.id, r)
  {
    var s' := Apply(s, step);
    if SomeCarries(s, x.id, r) {
      var t :| 0 <= t < |s.tasks| && Carries(s.tasks[t], x.id, r);
      assert Carries(s'.tasks[t], x.id, r);
    } else if step.RegistryUnsubscribe? && step.registry == r {
      if x.id == step.id {
        assert Carries(s'.tasks[|s.tasks|], x.id, r);
      } else {
        ForgetKeeps(s.tracked[r], step.id, x.id);
      }
    } else if step == UnsubscribeAll(r) {
      assert Carries(s'.tasks[|s.tasks|], x.id, r);
    }
  }

  lemma MoveKeepsAccount<E, F>(s: State<E, F>, u: nat, x: Sub<F>, r: nat)
    requires Consistent(s) && r < |s.tracked| && x in s.bus.subs && AccountedFor(s, x.id, r)
    requires u < |s.tasks| && x in Moved(s, u).bus.subs
    ensures r < |Moved(s, u).tracked| && AccountedFor(Moved(s, u), x.id, r)
  {
    var s', task := Moved(s, u), s.tasks[u];
    if x.id in s.tracked[r] {
      assert x.id in s'.tracked[r];
    } else {
      var t :| 0 <= t < |s.tasks| && Carries(s.tasks[t], x.id, r);
      if t != u {
        assert Carries(s'.tasks[t], x.id, r);
      } else {
        CarrierMoves(s, u, x, r);
      }
    }
  }

  lemma CarrierMoves<E, F>(s: State<E, F>, u: nat, x: Sub<F>, r: nat)
    requires Numbered(s) && r < |s.tracked| && x in s.bus.subs
    requires u < |s.tasks| && Carries(s.tasks[u], x.id, r) && x in Moved(s, u).bus.subs
    ensures r < |Moved(s, u).tracked| && AccountedFor(Moved(s, u), x.id, r)
  {
    if s.tasks[u].Tracking? {
      TrackingArrives(s, u, r);
    } else {
      assert Carries(Moved(s, u).tasks[u], x.id, r);
    }
  }

  lemma TrackingArrives<E, F>(s: State<E, F>, u: nat, r: nat)
    requires u < |s.tasks| && s.tasks[u].Tracking? && s.tasks[u].registry == r < |s.tracked|
    ensures r < |Moved(s, u).tracked| && s.tasks[u].id in Moved(s, u).tracked[r]
  {
    assert Moved(s, u).tracked[r] == s.tracked[r] + [s.tasks[u].id];
  }

  lemma AccountedMove<E, F>(s: State<E, F>, u: nat)
    requires Consistent(s) && Accounted(s) && u < |s.tasks|
    ensures Accounted(Moved(s, u))
  {
    var s', task := Moved(s, u), s.tasks[u];
    assert TaskOwned(s, task);
    forall i | 0 <= i < |s'.owners| ensures ValidOwner(s', s'.owners[i]) {
      assert i < |s.owners| ==> s'.owners[i] == s.owners[i] && ValidOwner(s, s.owners[i]);
    }
    forall r, x | 0 <= r < |s'.tracked| && x in s'.bus.subs && MadeBy(s', x, r) ensures AccountedFor(s', x.id, r) {
      if x in s.bus.subs {
        assert x.id <= s.bus.lastId && MadeBy(s, x, r);
        MoveKeepsAccount(s, u, x, r);
      } else {
        SectionBringsIn(s, task, x);
        assert Carries(s'.tasks[u], x.id, r);
      }
    }
  }

  lemma SectionBringsIn<E, F>(s: State<E, F>, task: Task<E, F>, x: Sub<F>)
    requires Numbered(s) && x in Section(s, task).bus.subs && x !in s.bus.subs
    ensures task.Drawn? && task.sub == x
  {
    if !task.Drawn? && !task.Subscribing? {
      SectionWithoutIds(s, task);
    }
  }

  lemma AccountedStep<E, F>(s: State<E, F>, step: Step<E, F>)
    requires Consistent(s) && Accounted(s)
    ensures Accounted(Apply(s, step))
  {
    var s' := Apply(s, step);
    if step.Advance? {
      if step.task < |s.tasks| {
        AccountedMove(s, step.task);
      }
    } else {
      forall r, x | 0 <= r < |s'.tracked| && x in s'.bus.subs && MadeBy(s', x, r) ensures AccountedFor(s', x.id, r) {
        assert ValidOwner(s, s.owners[x.id]);
        KeepsAccount(s, step, x, r);
      }
      forall i | 0 <= i < |s'.owners| ensures ValidOwner(s', s'.owners[i]) {
        assert s'.owners == s.owners && ValidOwner(s, s.owners[i]);
      }
    }
  }

  /** Over every interleaving. */
  lemma {:induction false} RunStaysAccounted<E, F>(s: State<E, F>, steps: seq<Step<E, F>>)
    requires Consistent(s) && Accounted(s)
    ensures Consistent(Run(s, steps)) && Accounted(Run(s, steps))
    decreases |steps|
  {
    if steps != [] {
      AccountedStep(s, steps[0]);
      RunStaysConsistent(s, [steps[0]]);
      RunOne(s, steps[0]);
      RunStaysAccounted(Apply(s, steps[0]), steps[1..]);
    }
  }

  /** No operation of the registry is under way. */
  ghost predicate Idle<E, F>(s: State<E, F>, r: nat) {
    forall t | 0 <= t < |s.tasks| :: !Registers(s.tasks[t], r) && !Handles(s.tasks[t], r)
  }

  predicate Handles<E, F>(task: Task<E, F>, r: nat) {
    (task.Tracking? || task.Removing? || task.Dropping?) && task.registry == r
  }

  /** In every reachable state, an UnsubscribeAll of a registry with no registration, Unsubscribe or
      UnsubscribeAll under way leaves none of its subscriptions. */
  lemma IdleLeavesNone<E(!new), F(!new)>(historySize: int, steps: seq<Step<E, F>>, r: nat)
    requires r < |Run(Init(historySize), steps).tracked| && Idle(Run(Init(historySize), steps), r)
    ensures
      var s := Run(Init<E, F>(historySize), steps);
      Settled(s, r) && LeavesNone(Apply(s, UnsubscribeAll(r)), |s.tasks|, r)
  {
    var s := Run(Init<E, F>(historySize), steps);
    InitConsistent<E, F>(historySize);
    RunStaysAccounted(Init<E, F>(historySize), steps);
    LeavesNoneIffSettled(s, r);
  }

  /** A registration is in the list and not yet tracked while its registry drops all it tracks. */
  lemma RegistrationSurvives()
    ensures
      var steps := [NewRegistry, BeginSubscribe(5, Some(0)), Advance(0)] + [Advance(0), UnsubscribeAll(0), Advance(1)];
      var s := Run<nat, nat>(Init(0), steps);
      |s.tasks| == 2 && s.tasks[1].Done? && s.bus.subs == [Sub(1, 5)] && MadeBy(s, Sub(1, 5), 0)
  {
    var s0: State<nat, nat> := Init(0);
    var first := [NewRegistry, BeginSubscribe(5, Some(0)), Advance(0)];
    RunConcat(s0, first, [Advance(0), UnsubscribeAll(0), Advance(1)]);
    RunThree(s0, NewRegistry, BeginSubscribe(5, Some(0)), Advance(0));
    var begun := Apply(Apply(s0, NewRegistry), BeginSubscribe(5, Some(0)));
    assert begun.tracked == [[]] && begun.tasks == [Subscribing(5, Some(0))];
    AfterDrawing(Run(s0, first));
  }

  lemma AfterDrawing(s: State<nat, nat>)
    requires s.tasks == [Drawn(Sub(1, 5), Some(0))] && s.owners == [None, Some(0)] && s.tracked == [[]]
    requires s.bus.subs == []
    ensures
      var s' := Run(s, [Advance(0), UnsubscribeAll(0), Advance(1)]);
      |s'.tasks| == 2 && s'.tasks[1].Done? && s'.bus.subs == [Sub(1, 5)] && MadeBy(s', Sub(1, 5), 0)
  {
    RunThree(s, Advance(0), UnsubscribeAll(0), Advance(1));
    var s1 := Apply(s, Advance(0));
    assert s1.tasks == [Tracking(1, 0)] && s1.bus.subs == [Sub(1, 5)];
    var s2 := Apply(s1, UnsubscribeAll(0));
    assert s2.tasks == [Tracking(1, 0), Dropping(0, [])];
  }
}
