/** Which waiting calls a connection loss or Close unblocks, and which stay blocked. */
module PendingClose {
  import opened Wrappers
  import opened PendingCalls

  /** A connection loss, or MQTT's Close, leaves no waiting call blocked, and a response
      buffered before it is still the one received. */
  lemma SweepUnblocksEveryone(s: State, step: Step, k: nat)
    requires Tracked(s) && Enabled(s, step) && (step.LossSweep? || step.CloseSweep?)
    requires k < |s.calls| && s.calls[k].phase.Waiting?
    ensures Enabled(Apply(s, step), Receive(k))
    ensures Apply(s, step).table.chans[k] == Channel(s.table.chans[k].buffer, true)
  {
    assert SafeCall(s, k);
    assert TrackedCall(s, k);
  }

  /** Call k waits on an open, empty channel that the map no longer leads to. */
  ghost predicate Orphan(s: State, k: nat) {
    && WellFormed(s) && k < |s.calls|
    && s.calls[k].phase.Waiting? && s.table.chans[k] == FRESH_CHANNEL
    && k !in s.table.pending.Values
  }

  /** An orphan stays blocked in every continuation until it gives up by itself. */
  lemma {:induction false} OrphanStaysBlocked(s: State, steps: seq<Step>, s': State, k: nat)
    requires Orphan(s, k) && Reaches(s, steps, s') && GiveUp(k) !in steps
    ensures Orphan(s', k) && !Enabled(s', Receive(k))
    decreases |steps|
  {
    if steps != [] {
      OrphanStaysBlocked(Apply(s, steps[0]), steps[1..], s', k);
    }
  }

  /** A builder id and the transport's own counter can meet: a request with id 1 and one
      without a numeric id (a batch) both file under key 1, and the first is orphaned. */
  lemma CollidingCountersOrphan(kind: Kind) returns (s: State)
    ensures Reaches(Init(kind), [Admit(Uint64(1)), Register(0), Admit(Other), Register(1)], s)
    ensures Orphan(s, 0)
  {
    var s0 := Init(kind);
    var s1 := Apply(s0, Admit(Uint64(1)));
    var s2 := Apply(s1, Register(0));
    var s3 := Apply(s2, Admit(Other));
    s := Apply(s3, Register(1));
    assert Reaches(s3, [Register(1)], s) by { assert [Register(1)][1..] == []; }
    var t := [Admit(Other), Register(1)];
    assert Reaches(s2, t, s) by { assert t[1..] == [Register(1)]; }
    var t1 := [Register(0), Admit(Other), Register(1)];
    assert Reaches(s1, t1, s) by { assert t1[1..] == t; }
    var t2 := [Admit(Uint64(1)), Register(0), Admit(Other), Register(1)];
    assert Reaches(s0, t2, s) by { assert t2[1..] == t1; }
    assert s.table.pending == map[1 := 1];
  }

  /** A connection loss while a WebSocket call waits: it receives nil and dereferences it. */
  lemma LossDereferencesNil() returns (steps: seq<Step>, s: State)
    ensures Reaches(Init(WebSocket), steps, s) && AllFresh(Init(WebSocket), steps)
    ensures |s.calls| == 1 && s.calls[0].phase == Leaving(NilDereference)
  {
    var s0 := Init(WebSocket);
    var s1 := Apply(s0, Admit(Uint64(1)));
    var s2 := Apply(s1, Register(0));
    steps, s := LossAfterRegister(s2);
    steps := [Admit(Uint64(1))] + ([Register(0)] + steps);
  }

  lemma LossAfterRegister(s: State) returns (steps: seq<Step>, s': State)
    requires WellFormed(s) && !s.closed && s.kind == WebSocket && s.lossHandlers == 0
    requires |s.calls| == 1 && s.calls[0].phase == Waiting && s.table.chans[0] == FRESH_CHANNEL
    requires s.table.pending == map[1 := 0]
    ensures Reaches(s, steps, s') && AllFresh(s, steps)
    ensures |s'.calls| == 1 && s'.calls[0].phase == Leaving(NilDereference)
  {
    var s1 := Apply(s, ObserveLoss);
    assert s1.table.pending[1] == 0;
    var s2 := Apply(s1, LossSweep);
    s' := Apply(s2, Receive(0));
    LastStep(s2, Receive(0));
    steps := [ObserveLoss] + ([LossSweep] + [Receive(0)]);
  }

  lemma LastStep(s: State, step: Step)
    requires WellFormed(s) && Enabled(s, step) && FreshStep(s, step)
    ensures Reaches(s, [step], Apply(s, step)) && AllFresh(s, [step])
  {
    assert [step][1..] == [];
  }

  /** No sweep can happen any more. */
  ghost predicate SweepsOver(s: State) {
    s.closed && s.lossHandlers == 0 && !s.closeSweep
  }

  /** Once the transport is closed and the last sweep ran, a call that is waiting (WebSocket)
      or registers late (either kind) is unblocked only by a response with its id. */
  lemma {:induction false} NobodyUnblocksAfterTheLastSweep(s: State, steps: seq<Step>, s': State, k: nat)
    requires Safe(s) && SweepsOver(s) && Reaches(s, steps, s')
    requires k < |s.calls| && (s.calls[k].phase.Admitted? || s.calls[k].phase.Waiting?)
    requires s.table.chans[k] == FRESH_CHANNEL
    requires forall step <- steps :: step.Deliver? ==> step.resp.id != s.calls[k].key
    requires GiveUp(k) !in steps
    ensures SweepsOver(s') && WellFormed(s') && k < |s'.calls|
    ensures !Enabled(s', Receive(k)) && (s'.calls[k].phase.Admitted? || s'.calls[k].phase.Waiting?)
    decreases |steps|
  {
    if steps != [] {
      SafeStep(s, steps[0]);
      NobodyUnblocksAfterTheLastSweep(Apply(s, steps[0]), steps[1..], s', k);
    }
  }

  // ---------------------------------------------------------------------- where sweeps come from

  /** What closing and losses have done is told by the steps taken. */
  ghost predicate SweepsAsTold(s: State, steps: seq<Step>, s': State) {
    && s'.kind == s.kind
    && s'.lossHandlers + multiset(steps)[LossSweep] == s.lossHandlers + multiset(steps)[ObserveLoss]
    && (s'.closed <==> s.closed || MarkClosed in steps)
    && (s'.closeSweep <==> (s.closeSweep || (s.kind == Mqtt && MarkClosed in steps)) && CloseSweep !in steps)
  }

  lemma {:induction false} SweepsRun(s: State, steps: seq<Step>, s': State)
    requires WellFormed(s) && Reaches(s, steps, s') && (s.closeSweep ==> s.closed)
    ensures SweepsAsTold(s, steps, s')
    ensures s.closed && !s.closeSweep ==> CloseSweep !in steps
    ensures s.closed ==> MarkClosed !in steps
    decreases |steps|
  {
    if steps != [] {
      SweepsRun(Apply(s, steps[0]), steps[1..], s');
      assert steps == [steps[0]] + steps[1..];
    }
  }

  /** In every run a transport is closed exactly after its Close, each loss observed is swept for at
      most once, and Close sweeps at most once, over MQTT only. */
  lemma SweepsHaveCauses(kind: Kind, steps: seq<Step>, s: State)
    requires Reaches(Init(kind), steps, s)
    ensures s.kind == kind && s.lossHandlers + multiset(steps)[LossSweep] == multiset(steps)[ObserveLoss]
    ensures s.closed <==> MarkClosed in steps
    ensures s.closeSweep <==> kind == Mqtt && MarkClosed in steps && CloseSweep !in steps
  {
    SweepsRun(Init(kind), steps, s);
  }

  // ------------------------------------------------------------------ closing the transport

  /** Once closed, a transport stays closed, admits no call and begins to handle no loss. */
  lemma {:induction false} ClosedTakesNoCalls(s: State, steps: seq<Step>, s': State)
    requires WellFormed(s) && s.closed && Reaches(s, steps, s')
    ensures s'.closed && |s'.calls| == |s.calls| && s'.lossHandlers <= s.lossHandlers
    ensures forall k | 0 <= k < |s.calls| :: s'.calls[k].key == s.calls[k].key
    decreases |steps|
  {
    if steps != [] {
      ClosedTakesNoCalls(Apply(s, steps[0]), steps[1..], s');
    }
  }

  /** MarkClosed closes either transport. */
  lemma ClosingTakesNoCalls(s: State, steps: seq<Step>, s': State)
    requires WellFormed(s) && !s.closed && Reaches(Apply(s, MarkClosed), steps, s')
    ensures s'.closed && |s'.calls| == |s.calls|
  {
    ClosedTakesNoCalls(Apply(s, MarkClosed), steps, s');
  }

  /** Some run makes call k's channel ready without the call giving up and without a response
      with its key. */
  ghost predicate UnblockedAlone(s: State, k: nat)
    requires WellFormed(s) && k < |s.calls|
  {
    exists steps, s' :: Reaches(s, steps, s') && UnblocksAlone(s, steps, s', k)
  }

  ghost predicate UnblocksAlone(s: State, steps: seq<Step>, s': State, k: nat)
    requires WellFormed(s) && k < |s.calls|
  {
    && GiveUp(k) !in steps
    && (forall step <- steps :: step.Deliver? ==> step.resp.id != s.calls[k].key)
    && WellFormed(s') && Enabled(s', Receive(k))
  }

  lemma UnblocksNow(s: State, k: nat)
    requires WellFormed(s) && Enabled(s, Receive(k))
    ensures UnblockedAlone(s, k)
  {
    assert Reaches(s, [], s) && UnblocksAlone(s, [], s, k);
  }

  lemma UnblocksAfter(s: State, step: Step, k: nat)
    requires WellFormed(s) && Enabled(s, step) && (step.LossSweep? || step.CloseSweep?)
    requires k < |s.calls| && Enabled(Apply(s, step), Receive(k))
    ensures UnblockedAlone(s, k)
  {
    LastStep(s, step);
    assert UnblocksAlone(s, [step], Apply(s, step), k);
  }

  /** Once the transport is closed, a waiting call gets on without an answer of its own if and only
      if the transport is MQTT, whose Close sweeps, or a loss was being handled already, or its
      channel was ready before: WebSocket's Close itself unblocks nobody. */
  lemma CloseUnblocksIff(s: State, k: nat)
    requires Tracked(s) && !s.closed && k < |s.calls| && s.calls[k].phase.Waiting?
    ensures WellFormed(Apply(s, MarkClosed))
    ensures UnblockedAlone(Apply(s, MarkClosed), k) <==>
            s.kind == Mqtt || s.lossHandlers > 0 || s.table.chans[k] != FRESH_CHANNEL
    ensures s.kind == Mqtt ==>
              var s1 := Apply(s, MarkClosed);
              Enabled(s1, CloseSweep) && Enabled(Apply(s1, CloseSweep), Receive(k))
    ensures s.kind == WebSocket && s.lossHandlers == 0 ==> SweepsOver(Apply(s, MarkClosed))
  {
    var s1 := Apply(s, MarkClosed);
    TrackedStep(s, MarkClosed);
    if s.kind == Mqtt {
      SweepUnblocksEveryone(s1, CloseSweep, k);
    }
    if s.table.chans[k] != FRESH_CHANNEL {
      UnblocksNow(s1, k);
    } else if s.kind == Mqtt {
      UnblocksAfter(s1, CloseSweep, k);
    } else if s.lossHandlers > 0 {
      SweepUnblocksEveryone(s1, LossSweep, k);
      UnblocksAfter(s1, LossSweep, k);
    } else {
      forall steps, s' | Reaches(s1, steps, s') ensures !UnblocksAlone(s1, steps, s', k) {
        if UnblocksAlone(s1, steps, s', k) {
          NobodyUnblocksAfterTheLastSweep(s1, steps, s', k);
        }
      }
    }
  }

  /** A WebSocket call waits, and the transport is closed: no sweep will ever reach it. */
  lemma CloseLeavesCallWaiting() returns (steps: seq<Step>, s: State)
    ensures Reaches(Init(WebSocket), steps, s) && AllFresh(Init(WebSocket), steps)
    ensures s.closed && |s.calls| == 1 && s.calls[0].phase == Waiting && WellFormed(s) && !UnblockedAlone(s, 0)
  {
    var s0 := Init(WebSocket);
    var s1 := Apply(s0, Admit(Uint64(1)));
    var s2 := Apply(s1, Register(0));
    s := Apply(s2, MarkClosed);
    TrackedStep(s0, Admit(Uint64(1)));
    TrackedStep(s1, Register(0));
    CloseUnblocksIff(s2, 0);
    LastStep(s2, MarkClosed);
    steps := [Admit(Uint64(1))] + ([Register(0)] + [MarkClosed]);
  }
}
