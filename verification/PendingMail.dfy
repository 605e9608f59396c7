/** What a call returns, by the trace of responses and sweeps. */
module PendingMail {
  import opened Wrappers
  import opened PendingCalls

  /** The first thing that happens to a waiting call: a response with its id, or a sweep. */
  datatype Mail = Nothing | Letter(resp: Response) | Torn

  ghost function MailStep(s: State, step: Step, k: nat, mail: Mail): Mail {
    if mail != Nothing || k >= |s.calls| || !s.calls[k].phase.Waiting? then mail
    else
      match step
      case Deliver(r) => if r.id == s.calls[k].key && r.id != 0 then Letter(r) else Nothing
      case LossSweep => Torn
      case CloseSweep => Torn
      case _ => Nothing
  }

  ghost function MailOf(from: State, steps: seq<Step>, s': State, k: nat, mail: Mail): Mail
    requires WellFormed(from) && Reaches(from, steps, s')
    decreases |steps|
  {
    if steps == [] then mail
    else MailOf(Apply(from, steps[0]), steps[1..], s', k, MailStep(from, steps[0], k, mail))
  }

  /** The channel of a waiting call, and the outcome of one that received, are what the mail says. */
  ghost predicate Agrees(s: State, k: nat, mail: Mail)
    requires WellFormed(s)
  {
    if k >= |s.calls| || s.calls[k].phase.Admitted? then mail == Nothing
    else if s.calls[k].phase.Waiting? then
      (match mail
       case Nothing => s.table.chans[k] == FRESH_CHANNEL
       case Letter(r) => s.table.chans[k].buffer == Some(r)
       case Torn => s.table.chans[k] == Channel(None, true))
    else
      match s.calls[k].phase.outcome
      case Answer(r) => mail == Letter(r)
      case Lost => mail == Torn
      case NilDereference => mail == Torn
      case GaveUp => true
  }

  lemma AgreesStep(s: State, step: Step, k: nat, mail: Mail)
    requires Tracked(s) && Enabled(s, step) && FreshStep(s, step) && Agrees(s, k, mail)
    ensures Agrees(Apply(s, step), k, MailStep(s, step, k, mail))
  {
    if k < |s.calls| {
      assert SafeCall(s, k) && TrackedCall(s, k);
      match step
      case Deliver(r) => AgreesDelivered(s, r, k, mail);
      case LossSweep => AgreesSwept(s, LossSweep, k, mail);
      case CloseSweep => AgreesSwept(s, CloseSweep, k, mail);
      case Receive(j) => AgreesReceived(s, j, k, mail);
      case _ =>
    }
  }

  lemma AgreesDelivered(s: State, r: Response, k: nat, mail: Mail)
    requires Tracked(s) && k < |s.calls| && Agrees(s, k, mail)
    ensures Agrees(Apply(s, Deliver(r)), k, MailStep(s, Deliver(r), k, mail))
  {
    assert SafeCall(s, k) && TrackedCall(s, k);
  }

  lemma AgreesReceived(s: State, j: nat, k: nat, mail: Mail)
    requires Tracked(s) && Enabled(s, Receive(j)) && k < |s.calls| && Agrees(s, k, mail)
    ensures Agrees(Apply(s, Receive(j)), k, MailStep(s, Receive(j), k, mail))
  {
    assert SafeCall(s, k);
  }

  lemma AgreesSwept(s: State, step: Step, k: nat, mail: Mail)
    requires Tracked(s) && Enabled(s, step) && (step.LossSweep? || step.CloseSweep?)
    requires k < |s.calls| && Agrees(s, k, mail)
    ensures Agrees(Apply(s, step), k, MailStep(s, step, k, mail))
  {
    assert SafeCall(s, k) && TrackedCall(s, k);
    SweptCall(s, k);
  }

  lemma {:induction false} MailDecides(s: State, steps: seq<Step>, s': State, k: nat, mail: Mail)
    requires Tracked(s) && AllFresh(s, steps) && Reaches(s, steps, s') && Agrees(s, k, mail)
    ensures WellFormed(s') && Agrees(s', k, MailOf(s, steps, s', k, mail))
    decreases |steps|
  {
    if steps != [] {
      AgreesStep(s, steps[0], k, mail);
      TrackedStep(s, steps[0]);
      MailDecides(Apply(s, steps[0]), steps[1..], s', k, MailStep(s, steps[0], k, mail));
    }
  }

  /** First event wins: in a run with fresh ids a waiting call can receive exactly when it has
      mail.  It then returns the first response carrying its id if that came before any sweep;
      after a sweep MQTT returns the connection-lost error and WebSocket dereferences nil. */
  lemma FirstEventWins(kind: Kind, steps: seq<Step>, s: State, k: nat)
    requires Reaches(Init(kind), steps, s) && AllFresh(Init(kind), steps) && k < |s.calls|
    ensures WellFormed(s)
    ensures
      var mail := MailOf(Init(kind), steps, s, k, Nothing);
      && (s.calls[k].phase.Waiting? ==>
            && (mail != Nothing <==> Enabled(s, Receive(k)))
            && (mail != Nothing ==>
                  Apply(s, Receive(k)).calls[k].phase == Leaving(
                    match mail
                    case Letter(r) => Answer(r)
                    case _ => if kind == Mqtt then Lost else NilDereference)))
      && ((s.calls[k].phase.Leaving? || s.calls[k].phase.Returned?) ==>
            match s.calls[k].phase.outcome
            case Answer(r) => mail == Letter(r)
            case Lost => kind == Mqtt && mail == Torn
            case NilDereference => kind == WebSocket && mail == Torn
            case GaveUp => true)
  {
    MailDecides(Init(kind), steps, s, k, Nothing);
    RunTracks(Init(kind), steps, s);
    KindIsConstant(Init(kind), steps, s);
    assert SafeCall(s, k);
  }

  // --------------------------------------------------------------------------- conservation

  /** How often a call has received a response or has it waiting in its channel. */
  ghost function HeldAt(c: Call, ch: Channel, r: Response): nat {
    (if (c.phase.Leaving? || c.phase.Returned?) && c.phase.outcome == Answer(r) then 1 else 0)
    + (if ch.buffer == Some(r) then 1 else 0)
  }

  /** The same of the first n calls together. */
  ghost function Held(s: State, n: nat, r: Response): nat
    requires WellFormed(s) && n <= |s.calls|
  {
    if n == 0 then 0 else Held(s, n - 1, r) + HeldAt(s.calls[n - 1], s.table.chans[n - 1], r)
  }

  /** A change at call k alone changes the sum by as much. */
  lemma {:induction false} HeldMoves(s: State, s': State, n: nat, k: nat, r: Response)
    requires WellFormed(s) && WellFormed(s') && n <= |s.calls| && n <= |s'.calls|
    requires forall i | 0 <= i < n && i != k ::
               HeldAt(s'.calls[i], s'.table.chans[i], r) == HeldAt(s.calls[i], s.table.chans[i], r)
    ensures Held(s', n, r) == Held(s, n, r) +
                              if k < n then HeldAt(s'.calls[k], s'.table.chans[k], r)
                                            - HeldAt(s.calls[k], s.table.chans[k], r)
                              else 0
  {
    if n > 0 {
      HeldMoves(s, s', n - 1, k, r);
    }
  }

  /** The call whose channel or outcome a step can change. */
  ghost function TouchedBy(s: State, step: Step): nat {
    match step
    case Deliver(r) => if r.id in s.table.pending then s.table.pending[r.id] else |s.calls|
    case Register(k) => k
    case Receive(k) => k
    case GiveUp(k) => k
    case Finish(k) => k
    case _ => |s.calls|
  }

  lemma OthersHold(s: State, step: Step, i: nat, r: Response)
    requires WellFormed(s) && Enabled(s, step) && i < |s.calls|
    ensures
      var s' := Apply(s, step);
      var before := HeldAt(s.calls[i], s.table.chans[i], r);
      var after := HeldAt(s'.calls[i], s'.table.chans[i], r);
      if i == TouchedBy(s, step) then after <= before + (if step == Deliver(r) then 1 else 0)
      else after == before
  {
  }

  lemma HeldStep(s: State, step: Step, r: Response)
    requires WellFormed(s) && Enabled(s, step)
    ensures
      var s' := Apply(s, step);
      Held(s', |s'.calls|, r) <= Held(s, |s.calls|, r) + if step == Deliver(r) then 1 else 0
  {
    var s', n := Apply(s, step), |s.calls|;
    forall i | 0 <= i < n && i != TouchedBy(s, step)
      ensures HeldAt(s'.calls[i], s'.table.chans[i], r) == HeldAt(s.calls[i], s.table.chans[i], r)
    {
      OthersHold(s, step, i, r);
    }
    HeldMoves(s, s', n, TouchedBy(s, step), r);
    if TouchedBy(s, step) < n {
      OthersHold(s, step, TouchedBy(s, step), r);
    }
  }

  lemma {:induction false} HeldRun(s: State, steps: seq<Step>, s': State, r: Response)
    requires WellFormed(s) && Reaches(s, steps, s')
    ensures WellFormed(s') && Held(s', |s'.calls|, r) <= Held(s, |s.calls|, r) + multiset(steps)[Deliver(r)]
    decreases |steps|
  {
    if steps != [] {
      HeldStep(s, steps[0], r);
      HeldRun(Apply(s, steps[0]), steps[1..], s', r);
      assert steps == [steps[0]] + steps[1..];
    }
  }

  /** Over every interleaving no response is received more often than it was delivered, what still
      waits in a channel included. */
  lemma NoResponseTwice(kind: Kind, steps: seq<Step>, s: State, r: Response)
    requires Reaches(Init(kind), steps, s)
    ensures WellFormed(s) && Held(s, |s.calls|, r) <= multiset(steps)[Deliver(r)]
  {
    HeldRun(Init(kind), steps, s, r);
  }

  lemma {:induction false} KindIsConstant(s: State, steps: seq<Step>, s': State)
    requires WellFormed(s) && Reaches(s, steps, s')
    ensures s'.kind == s.kind
    decreases |steps|
  {
    if steps != [] {
      KindIsConstant(Apply(s, steps[0]), steps[1..], s');
    }
  }
}
