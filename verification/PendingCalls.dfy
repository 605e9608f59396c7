/**
 Request/response correlation of the MQTT and WebSocket transports.

 Every `Call` makes a one-slot channel, files it in `pending` under its request id, and
 waits.  The response handler, the connection-lost handler and `Close` work on the same
 map.  Each step below is one critical section of `pendingMu` (or one channel operation),
 so a sequence of steps is an interleaving of all these goroutines.
 */
module PendingCalls {
  import opened Wrappers

  /** Conversion to a signed 64-bit integer, keeping the low 64 bits. */
  function Wrap64(n: int): int64 {
    var low := n % TWO_64;
    if low < TWO_63 then low else low - TWO_64
  }

  /** The dynamic type of a request's id. */
  datatype RpcId = Int64(i: int64) | Uint64(u: uint64) | Int(n: int64) | Other

  function ToInt64Id(id: RpcId): int64 {
    match id
    case Int64(i) => i
    case Uint64(u) => Wrap64(u)
    case Int(n) => n
    case Other => -1
  }

  datatype RpcError = RpcError(code: int, message: string)
  datatype Response = Response(id: int64, error: Option<RpcError>, result: string)

  /** A channel of capacity one. */
  datatype Channel = Channel(buffer: Option<Response>, closed: bool)

  const FRESH_CHANNEL := Channel(None, false)

  /** The `pending` map over all channels ever made.  `fault` records a run-time panic: a
      send on a closed channel or a second close. */
  datatype Table = Table(chans: seq<Channel>, pending: map<int64, nat>, fault: bool)

  ghost predicate Wired(t: Table) {
    forall id <- t.pending :: t.pending[id] < |t.chans|
  }

  ghost function Put(t: Table, key: int64, k: nat): Table {
    t.(pending := t.pending[key := k])
  }

  ghost function Drop(t: Table, key: int64): Table {
    t.(pending := t.pending - {key})
  }

  /** The response handler: a non-blocking send to the channel filed under the id. */
  ghost function Offer(t: Table, r: Response): Table
    requires Wired(t)
  {
    if r.id == 0 || r.id !in t.pending then t
    else
      var k := t.pending[r.id];
      if t.chans[k].closed then t.(fault := true)
      else if t.chans[k].buffer.Some? then t
      else t.(chans := t.chans[k := Channel(Some(r), false)])
  }

  ghost predicate ClosesTwice(t: Table)
    requires Wired(t)
  {
    || (exists id <- t.pending :: t.chans[t.pending[id]].closed)
    || (exists id, id' :: id in t.pending && id' in t.pending && id != id' && t.pending[id] == t.pending[id'])
  }

  /** Closing and deleting every entry. */
  ghost function Sweep(t: Table): Table
    requires Wired(t)
  {
    Table(seq(|t.chans|, i requires 0 <= i < |t.chans| =>
                if i in t.pending.Values then t.chans[i].(closed := true) else t.chans[i]),
          map[], t.fault || ClosesTwice(t))
  }

  /** A send on a closed channel, a close of a closed one and two closes of one are faults, and no
      fault is forgotten. */
  lemma FaultsAreRecorded(t: Table, r: Response)
    requires Wired(t)
    ensures r.id != 0 && r.id in t.pending && t.chans[t.pending[r.id]].closed ==> Offer(t, r).fault
    ensures (exists id <- t.pending :: t.chans[t.pending[id]].closed) ==> Sweep(t).fault
    ensures (exists id, id' :: id in t.pending && id' in t.pending && id != id' && t.pending[id] == t.pending[id']) ==>
              Sweep(t).fault
    ensures t.fault ==> Offer(t, r).fault && Sweep(t).fault
  {
  }

  datatype Kind = Mqtt | WebSocket

  /** How a call ends: with a response, with the connection-lost error, by dereferencing the
      nil it received, or for a reason of its own (context done, publish failed). */
  datatype Outcome = Answer(resp: Response) | Lost | NilDereference | GaveUp

  /** A call that returned from its `select` still holds its map entry until the deferred
      deletion ran: it is `Leaving` in between. */
  datatype Phase = Admitted | Waiting | Leaving(outcome: Outcome) | Returned(outcome: Outcome)

  datatype Call = Call(key: int64, phase: Phase)

  datatype State = State(
    kind: Kind,
    calls: seq<Call>,      // call k owns channel k
    table: Table,
    ownIds: nat,           // the transport's own id counter
    closed: bool,
    lossHandlers: nat,     // connection-lost handlers past their closed check
    closeSweep: bool)      // Close has set `closed` but not yet swept

  datatype Step =
    | Admit(id: RpcId)
    | Register(k: nat)
    | Deliver(resp: Response)
    | Receive(k: nat)
    | GiveUp(k: nat)
    | Finish(k: nat)
    | ObserveLoss
    | LossSweep
    | MarkClosed
    | CloseSweep

  function Init(kind: Kind): State {
    State(kind, [], Table([], map[], false), 0, false, 0, false)
  }

  ghost predicate WellFormed(s: State) {
    |s.calls| == |s.table.chans| && Wired(s.table)
  }

  predicate InFlight(c: Call) {
    c.phase.Waiting? || c.phase.Leaving?
  }

  predicate Receivable(ch: Channel) {
    ch.buffer.Some? || ch.closed
  }

  /** What a receive yields: a buffered response even from a closed channel, else nil, which
      only the MQTT transport checks for. */
  function ReceiveOutcome(kind: Kind, ch: Channel): Outcome
    requires Receivable(ch)
  {
    match ch.buffer
    case Some(r) => Answer(r)
    case None => if kind.Mqtt? then Lost else NilDereference
  }

  ghost predicate Enabled(s: State, step: Step)
    requires WellFormed(s)
  {
    match step
    case Admit(_) => !s.closed
    case Register(k) => k < |s.calls| && s.calls[k].phase.Admitted?
    case Deliver(_) => true
    case Receive(k) => k < |s.calls| && s.calls[k].phase.Waiting? && Receivable(s.table.chans[k])
    case GiveUp(k) => k < |s.calls| && s.calls[k].phase.Waiting?
    case Finish(k) => k < |s.calls| && s.calls[k].phase.Leaving?
    case ObserveLoss => !s.closed
    case LossSweep => s.lossHandlers > 0
    case MarkClosed => !s.closed
    case CloseSweep => s.closeSweep
  }

  function SetPhase(calls: seq<Call>, k: nat, phase: Phase): seq<Call>
    requires k < |calls|
  {
    calls[k := calls[k].(phase := phase)]
  }

  ghost function Apply(s: State, step: Step): (s': State)
    requires WellFormed(s) && Enabled(s, step)
    ensures WellFormed(s')
  {
    match step
    case Admit(id) =>
      var own := ToInt64Id(id) < 0;
      var key := if own then Wrap64(s.ownIds + 1) else ToInt64Id(id);
      s.(calls := s.calls + [Call(key, Admitted)],
         table := s.table.(chans := s.table.chans + [FRESH_CHANNEL]),
         ownIds := if own then s.ownIds + 1 else s.ownIds)
    case Register(k) =>
      s.(calls := SetPhase(s.calls, k, Waiting), table := Put(s.table, s.calls[k].key, k))
    case Deliver(r) =>
      s.(table := Offer(s.table, r))
    case Receive(k) =>
      var ch := s.table.chans[k];
      s.(calls := SetPhase(s.calls, k, Leaving(ReceiveOutcome(s.kind, ch))),
         table := s.table.(chans := s.table.chans[k := ch.(buffer := None)]))
    case GiveUp(k) =>
      s.(calls := SetPhase(s.calls, k, Leaving(GaveUp)))
    case Finish(k) =>
      s.(calls := SetPhase(s.calls, k, Returned(s.calls[k].phase.outcome)),
         table := Drop(s.table, s.calls[k].key))
    case ObserveLoss =>
      s.(lossHandlers := s.lossHandlers + 1)
    case LossSweep =>
      s.(lossHandlers := s.lossHandlers - 1, table := Sweep(s.table))
    case MarkClosed =>
      s.(closed := true, closeSweep := s.kind.Mqtt?)
    case CloseSweep =>
      s.(closeSweep := false, table := Sweep(s.table))
  }

  /** `s` is reached from `from` by taking the steps in order. */
  ghost predicate Reaches(from: State, steps: seq<Step>, s: State)
    requires WellFormed(from)
    decreases |steps|
  {
    if steps == [] then s == from
    else Enabled(from, steps[0]) && Reaches(Apply(from, steps[0]), steps[1..], s)
  }

  // ---------------------------------------------------------------- channel safety

  ghost predicate SafeCall(s: State, k: nat)
    requires WellFormed(s) && k < |s.calls|
  {
    var c, ch := s.calls[k], s.table.chans[k];
    && (c.phase.Admitted? ==> ch == FRESH_CHANNEL)
    && (ch.buffer.Some? ==> ch.buffer.value.id == c.key != 0)
    && ((c.phase.Leaving? || c.phase.Returned?) ==>
          match c.phase.outcome
          case Answer(r) => r.id == c.key && r.id != 0
          case Lost => ch.closed && s.kind.Mqtt?
          case NilDereference => ch.closed && s.kind.WebSocket?
          case GaveUp => true)
  }

  ghost predicate SafeEntry(s: State, id: int64)
    requires WellFormed(s) && id in s.table.pending
  {
    var k := s.table.pending[id];
    s.calls[k].key == id && !s.calls[k].phase.Admitted? && !s.table.chans[k].closed
  }

  /** Nothing has panicked, and every filed channel is open and filed under its owner's key. */
  ghost predicate Safe(s: State) {
    && WellFormed(s)
    && !s.table.fault
    && (forall id <- s.table.pending :: SafeEntry(s, id))
    && (forall k: nat | k < |s.calls| :: SafeCall(s, k))
  }

  lemma SafeStep(s: State, step: Step)
    requires Safe(s) && Enabled(s, step)
    ensures Safe(Apply(s, step))
  {
    var s' := Apply(s, step);
    forall k: nat | k < |s'.calls| ensures SafeCall(s', k) {
      SafeCallStep(s, step, k);
    }
    forall id | id in s'.table.pending ensures SafeEntry(s', id) {
      SafeEntryStep(s, step, id);
    }
  }

  lemma NoDoubleClose(s: State)
    requires Safe(s)
    ensures !ClosesTwice(s.table)
  {
    forall id | id in s.table.pending ensures SafeEntry(s, id) {
    }
  }

  lemma SafeCallStep(s: State, step: Step, k: nat)
    requires Safe(s) && Enabled(s, step) && k < |Apply(s, step).calls|
    ensures SafeCall(Apply(s, step), k)
  {
    if k < |s.calls| {
      assert SafeCall(s, k);
      match step
      case Admit(id) => assert Apply(s, Admit(id)).table.chans[k] == s.table.chans[k];
      case Deliver(r) => SafeOffer(s, r, k);
      case Receive(j) => SafeReceive(s, j, k);
      case LossSweep => SafeSweep(s, k);
      case CloseSweep => SafeSweep(s, k);
      case _ => assert Apply(s, step).table.chans == s.table.chans;
    }
  }

  lemma SafeReceive(s: State, j: nat, k: nat)
    requires Safe(s) && Enabled(s, Receive(j)) && k < |s.calls|
    ensures SafeCall(Apply(s, Receive(j)), k)
  {
    assert SafeCall(s, k);
  }

  lemma SafeSweep(s: State, k: nat)
    requires Safe(s) && k < |s.calls|
    ensures SafeCall(s.(table := Sweep(s.table)), k)
  {
    assert SafeCall(s, k);
    if k in s.table.pending.Values {
      var id :| id in s.table.pending && s.table.pending[id] == k;
      assert SafeEntry(s, id);
    }
  }

  /** A response only ever enters the channel of a call with its id. */
  lemma SafeOffer(s: State, r: Response, k: nat)
    requires Safe(s) && k < |s.calls|
    ensures
      var ch := Offer(s.table, r).chans[k];
      || ch == s.table.chans[k]
      || (!s.calls[k].phase.Admitted? && r.id == s.calls[k].key != 0 && ch == Channel(Some(r), false))
  {
    if r.id in s.table.pending {
      assert SafeEntry(s, r.id);
    }
  }

  lemma SafeEntryStep(s: State, step: Step, id: int64)
    requires Safe(s) && Enabled(s, step) && id in Apply(s, step).table.pending
    ensures SafeEntry(Apply(s, step), id)
  {
    if id in s.table.pending {
      assert SafeEntry(s, id);
    }
    match step
    case Register(k) => assert SafeCall(s, k);
    case Deliver(r) => if r.id in s.table.pending { assert SafeEntry(s, r.id); }
    case _ =>
  }

  /** Over every interleaving, duplicate ids included: no send on a closed channel, no second
      close, and a call only ever receives a response that carries its own id. */
  lemma {:induction false} RunIsSafe(s: State, steps: seq<Step>, s': State)
    requires Safe(s) && Reaches(s, steps, s')
    ensures Safe(s')
    decreases |steps|
  {
    if steps != [] {
      SafeStep(s, steps[0]);
      RunIsSafe(Apply(s, steps[0]), steps[1..], s');
    }
  }

  // ------------------------------------------------ exact tracking under distinct ids

  /** No call in flight other than k uses k's key. */
  ghost predicate FreshKey(s: State, k: nat)
    requires k < |s.calls|
  {
    forall j: nat | j < |s.calls| && j != k && InFlight(s.calls[j]) :: s.calls[j].key != s.calls[k].key
  }

  ghost predicate Filed(s: State, k: nat)
    requires k < |s.calls|
  {
    s.calls[k].key in s.table.pending && s.table.pending[s.calls[k].key] == k
  }

  /** `pending` holds exactly the calls registered and neither finished nor cancelled. */
  ghost predicate Tracks(s: State)
    requires WellFormed(s)
  {
    forall k: nat | k < |s.calls| :: TrackedCall(s, k)
  }

  ghost predicate TrackedCall(s: State, k: nat)
    requires WellFormed(s) && k < |s.calls|
  {
    Filed(s, k) <==> InFlight(s.calls[k]) && !s.table.chans[k].closed
  }

  ghost predicate DistinctInFlight(s: State) {
    forall k: nat | k < |s.calls| && InFlight(s.calls[k]) :: FreshKey(s, k)
  }

  ghost predicate Tracked(s: State) {
    Safe(s) && Tracks(s) && DistinctInFlight(s)
  }

  ghost predicate FreshStep(s: State, step: Step)
    requires WellFormed(s) && Enabled(s, step)
  {
    step.Register? ==> FreshKey(s, step.k)
  }

  /** Every registration of the run uses a key no other call in flight uses. */
  ghost predicate AllFresh(from: State, steps: seq<Step>)
    requires WellFormed(from)
    decreases |steps|
  {
    steps == [] ||
    (Enabled(from, steps[0]) && FreshStep(from, steps[0]) && AllFresh(Apply(from, steps[0]), steps[1..]))
  }

  lemma TrackedStep(s: State, step: Step)
    requires Tracked(s) && Enabled(s, step) && FreshStep(s, step)
    ensures Tracked(Apply(s, step))
  {
    SafeStep(s, step);
    DistinctStep(s, step);
    forall k: nat | k < |Apply(s, step).calls| ensures TrackedCall(Apply(s, step), k) {
      if k < |s.calls| {
        TrackedCallStep(s, step, k);
      } else {
        assert step.Admit?;
      }
    }
  }

  lemma DistinctStep(s: State, step: Step)
    requires DistinctInFlight(s) && WellFormed(s) && Enabled(s, step) && FreshStep(s, step)
    ensures DistinctInFlight(Apply(s, step))
  {
    var s' := Apply(s, step);
    forall k: nat | k < |s'.calls| && InFlight(s'.calls[k]) ensures FreshKey(s', k) {
      if step.Register? {
        assert k == step.k || FreshKey(s, k);
      } else {
        assert FreshKey(s, k);
      }
    }
  }

  lemma TrackedCallStep(s: State, step: Step, k: nat)
    requires Tracked(s) && Enabled(s, step) && FreshStep(s, step) && k < |s.calls|
    ensures TrackedCall(Apply(s, step), k)
  {
    assert SafeCall(s, k) && TrackedCall(s, k);
    match step
    case Finish(j) => FinishedCall(s, j, k);
    case Register(j) => RegisteredCall(s, j, k);
    case LossSweep => SweptCall(s, k);
    case CloseSweep => SweptCall(s, k);
    case _ =>
  }

  lemma FinishedCall(s: State, j: nat, k: nat)
    requires Tracked(s) && Enabled(s, Finish(j)) && k < |s.calls|
    ensures TrackedCall(Apply(s, Finish(j)), k)
  {
    assert SafeCall(s, k) && TrackedCall(s, k);
    if k != j && InFlight(s.calls[k]) {
      assert FreshKey(s, k);
    }
  }

  lemma RegisteredCall(s: State, j: nat, k: nat)
    requires Tracked(s) && Enabled(s, Register(j)) && FreshKey(s, j) && k < |s.calls|
    ensures TrackedCall(Apply(s, Register(j)), k)
  {
    assert SafeCall(s, k) && TrackedCall(s, k);
  }

  lemma SweptCall(s: State, k: nat)
    requires Tracked(s) && k < |s.calls|
    ensures Sweep(s.table).chans[k].closed <==> Filed(s, k) || s.table.chans[k].closed
    ensures InFlight(s.calls[k]) ==> Sweep(s.table).chans[k].closed
  {
    assert TrackedCall(s, k);
    if k in s.table.pending.Values {
      var id :| id in s.table.pending && s.table.pending[id] == k;
    }
  }

  lemma {:induction false} RunTracks(s: State, steps: seq<Step>, s': State)
    requires Tracked(s) && AllFresh(s, steps) && Reaches(s, steps, s')
    ensures Tracked(s')
    decreases |steps|
  {
    if steps != [] {
      TrackedStep(s, steps[0]);
      RunTracks(Apply(s, steps[0]), steps[1..], s');
    }
  }

  ghost predicate NoRegister(steps: seq<Step>) {
    forall step <- steps :: !step.Register?
  }

  /** Registering keeps the map exact for good if and only if the key is not in use. */
  lemma TracksIffFresh(s: State, k: nat)
    requires Tracked(s) && Enabled(s, Register(k))
    ensures
      FreshKey(s, k) <==>
      forall steps, s' | NoRegister(steps) && Reaches(Apply(s, Register(k)), steps, s') ::
        WellFormed(s') && Tracks(s')
  {
    var s1 := Apply(s, Register(k));
    if FreshKey(s, k) {
      TrackedStep(s, Register(k));
      forall steps, s' | NoRegister(steps) && Reaches(s1, steps, s')
        ensures WellFormed(s') && Tracks(s')
      {
        RunWithoutRegisterIsFresh(s1, steps, s');
        RunTracks(s1, steps, s');
      }
    } else {
      var j: nat :| j < |s.calls| && j != k && InFlight(s.calls[j]) && s.calls[j].key == s.calls[k].key;
      var steps, s' := DuplicateLosesTrack(s, k, j);
      assert NoRegister(steps) && Reaches(s1, steps, s') && !Tracks(s');
    }
  }

  lemma {:induction false} RunWithoutRegisterIsFresh(s: State, steps: seq<Step>, s': State)
    requires WellFormed(s) && NoRegister(steps) && Reaches(s, steps, s')
    ensures AllFresh(s, steps)
    decreases |steps|
  {
    if steps != [] {
      RunWithoutRegisterIsFresh(Apply(s, steps[0]), steps[1..], s');
    }
  }

  /** With a duplicate key j the map is wrong at once, or when j's deferred deletion runs. */
  lemma DuplicateLosesTrack(s: State, k: nat, j: nat) returns (steps: seq<Step>, s': State)
    requires Tracked(s) && Enabled(s, Register(k))
    requires j < |s.calls| && j != k && InFlight(s.calls[j]) && s.calls[j].key == s.calls[k].key
    ensures NoRegister(steps) && Reaches(Apply(s, Register(k)), steps, s')
    ensures WellFormed(s') && !Tracks(s')
  {
    var s1 := Apply(s, Register(k));
    assert SafeCall(s, k);
    if !s.table.chans[j].closed {
      steps, s' := [], s1;
      assert !TrackedCall(s1, j);
    } else {
      var s2 := s1;
      if s.calls[j].phase.Waiting? {
        s2 := Apply(s1, GiveUp(j));
      }
      s' := Apply(s2, Finish(j));
      assert Reaches(s2, [Finish(j)], s') by {
        assert [Finish(j)][1..] == [];
      }
      steps := if s.calls[j].phase.Waiting? then [GiveUp(j), Finish(j)] else [Finish(j)];
      if s.calls[j].phase.Waiting? {
        assert steps[1..] == [Finish(j)];
      }
      assert !TrackedCall(s', k);
    }
  }

  // -------------------------------------------------------------------- where keys come from

  /** The number an id stands for. */
  function NumberOf(id: RpcId): int
    requires !id.Other?
  {
    match id
    case Int64(i) => i
    case Uint64(u) => u
    case Int(n) => n
  }

  /** A numeric id keeps its number, modulo 2^64, and a number below 2^63 exactly. */
  lemma NumericIdsKeepNumber(id: RpcId)
    requires !id.Other?
    ensures (ToInt64Id(id) - NumberOf(id)) % TWO_64 == 0
    ensures NumberOf(id) < TWO_63 ==> ToInt64Id(id) == NumberOf(id)
  {
  }

  /** The ids of the calls a run admits, in order. */
  ghost function AdmittedIds(steps: seq<Step>): seq<RpcId> {
    if steps == [] then []
    else (if steps[0].Admit? then [steps[0].id] else []) + AdmittedIds(steps[1..])
  }

  /** An id that is not numeric, or negative, is replaced by one of the transport's own. */
  predicate DrawsOwn(id: RpcId) {
    ToInt64Id(id) < 0
  }

  ghost function OwnDraws(ids: seq<RpcId>): nat {
    if ids == [] then 0 else OwnDraws(ids[..|ids| - 1]) + if DrawsOwn(ids[|ids| - 1]) then 1 else 0
  }

  /** The k-th call's key: its own number, or how many own ids were drawn by then. */
  ghost function KeyOf(ids: seq<RpcId>, k: nat): int64
    requires k < |ids|
  {
    if DrawsOwn(ids[k]) then Wrap64(OwnDraws(ids[..k + 1])) else ToInt64Id(ids[k])
  }

  ghost predicate KeyedBy(s: State, ids: seq<RpcId>) {
    && |s.calls| == |ids| && s.ownIds == OwnDraws(ids)
    && forall k: nat | k < |ids| :: s.calls[k].key == KeyOf(ids, k)
  }

  lemma KeyedStep(s: State, ids: seq<RpcId>, step: Step)
    requires WellFormed(s) && Enabled(s, step) && KeyedBy(s, ids)
    ensures KeyedBy(Apply(s, step), if step.Admit? then ids + [step.id] else ids)
  {
    if step.Admit? {
      var all := ids + [step.id];
      assert all[..|ids|] == ids && all[..|ids| + 1] == all;
      forall k: nat | k < |ids| ensures KeyOf(all, k) == KeyOf(ids, k) {
        assert all[..k + 1] == ids[..k + 1];
      }
    }
  }

  lemma {:induction false} KeyedRun(s: State, ids: seq<RpcId>, steps: seq<Step>, s': State)
    requires WellFormed(s) && Reaches(s, steps, s') && KeyedBy(s, ids)
    ensures KeyedBy(s', ids + AdmittedIds(steps))
    decreases |steps|
  {
    if steps == [] {
      assert ids + [] == ids;
    } else {
      var next := if steps[0].Admit? then ids + [steps[0].id] else ids;
      KeyedStep(s, ids, steps[0]);
      AdmittedNext(ids, steps);
      KeyedRun(Apply(s, steps[0]), next, steps[1..], s');
    }
  }

  lemma AdmittedNext(ids: seq<RpcId>, steps: seq<Step>)
    requires steps != []
    ensures
      var next := if steps[0].Admit? then ids + [steps[0].id] else ids;
      next + AdmittedIds(steps[1..]) == ids + AdmittedIds(steps)
  {
    if steps[0].Admit? {
      assert ids + ([steps[0].id] + AdmittedIds(steps[1..])) == ids + [steps[0].id] + AdmittedIds(steps[1..]);
    } else {
      assert [] + AdmittedIds(steps[1..]) == AdmittedIds(steps[1..]);
    }
  }

  /** In every run the calls' keys are those of their ids; the transport's own ids count up. */
  lemma KeysComeFromIds(kind: Kind, steps: seq<Step>, s: State)
    requires Reaches(Init(kind), steps, s)
    ensures KeyedBy(s, AdmittedIds(steps))
  {
    KeyedRun(Init(kind), [], steps, s);
    assert [] + AdmittedIds(steps) == AdmittedIds(steps);
  }

  lemma {:induction false} OwnDrawsGrow(ids: seq<RpcId>, j: nat, k: nat)
    requires j <= k <= |ids|
    ensures OwnDraws(ids[..j]) <= OwnDraws(ids[..k]) <= k
    ensures j < k && DrawsOwn(ids[k - 1]) ==> OwnDraws(ids[..j]) < OwnDraws(ids[..k])
  {
    if k > 0 {
      assert ids[..k][..k - 1] == ids[..k - 1];
      OwnDrawsGrow(ids, if j < k then j else k - 1, k - 1);
    }
  }

  /** With fewer than 2^63 calls, those that got an id of the transport's own have distinct keys,
      whatever the other calls' ids. */
  lemma OwnIdsAreDistinct(kind: Kind, steps: seq<Step>, s: State, j: nat, k: nat)
    requires Reaches(Init(kind), steps, s) && |s.calls| < TWO_63 && j < k < |s.calls|
    ensures |AdmittedIds(steps)| == |s.calls|
    ensures DrawsOwn(AdmittedIds(steps)[j]) && DrawsOwn(AdmittedIds(steps)[k]) ==>
              1 <= s.calls[j].key < s.calls[k].key <= |s.calls|
  {
    KeysComeFromIds(kind, steps, s);
    OwnKeysGrow(AdmittedIds(steps), j, k);
  }

  lemma OwnKeysGrow(ids: seq<RpcId>, j: nat, k: nat)
    requires j < k < |ids| < TWO_63
    ensures DrawsOwn(ids[j]) && DrawsOwn(ids[k]) ==> 1 <= KeyOf(ids, j) < KeyOf(ids, k) <= |ids|
  {
    OwnDrawsGrow(ids, 0, j + 1);
    OwnDrawsGrow(ids, j + 1, k + 1);
    SmallNumbersStay(OwnDraws(ids[..j + 1]));
    SmallNumbersStay(OwnDraws(ids[..k + 1]));
  }

  lemma SmallNumbersStay(n: nat)
    ensures n < TWO_63 ==> Wrap64(n) == n
  {
  }

  /** No two calls share a key. */
  ghost predicate DistinctKeys(s: State) {
    forall j: nat, k: nat | j < k < |s.calls| :: s.calls[j].key != s.calls[k].key
  }

  lemma {:induction false} KeysAreKept(s: State, steps: seq<Step>, s': State)
    requires WellFormed(s) && Reaches(s, steps, s')
    ensures |s.calls| <= |s'.calls| && forall k: nat | k < |s.calls| :: s'.calls[k].key == s.calls[k].key
    decreases |steps|
  {
    if steps != [] {
      KeysAreKept(Apply(s, steps[0]), steps[1..], s');
    }
  }

  /** A run that ends with distinct keys registered each while it was free. */
  lemma {:induction false} DistinctKeysWereFresh(s: State, steps: seq<Step>, s': State)
    requires WellFormed(s) && Reaches(s, steps, s') && DistinctKeys(s')
    ensures AllFresh(s, steps)
    decreases |steps|
  {
    if steps != [] {
      KeysAreKept(s, steps, s');
      assert DistinctKeys(s);
      DistinctKeysWereFresh(Apply(s, steps[0]), steps[1..], s');
    }
  }

  /** Ids of the transport's own alone, fewer than 2^63 of them, are fresh in every interleaving. */
  lemma OwnIdsAreFresh(kind: Kind, steps: seq<Step>, s: State)
    requires forall step <- steps :: step.Admit? ==> DrawsOwn(step.id)
    requires Reaches(Init(kind), steps, s) && |s.calls| < TWO_63
    ensures DistinctKeys(s) && AllFresh(Init(kind), steps)
  {
    AdmittedAreOf(steps);
    KeysComeFromIds(kind, steps, s);
    forall j: nat, k: nat | j < k < |s.calls| ensures s.calls[j].key != s.calls[k].key {
      assert AdmittedIds(steps)[j] in AdmittedIds(steps) && AdmittedIds(steps)[k] in AdmittedIds(steps);
      OwnIdsAreDistinct(kind, steps, s, j, k);
    }
    DistinctKeysWereFresh(Init(kind), steps, s);
  }

  lemma {:induction false} AdmittedAreOf(steps: seq<Step>)
    ensures forall id <- AdmittedIds(steps) :: Admit(id) in steps
  {
    if steps != [] {
      AdmittedAreOf(steps[1..]);
      assert steps == [steps[0]] + steps[1..];
    }
  }

  /** The ids of a request builder below 2^63, each used once, are fresh in every interleaving. */
  lemma BuilderIdsAreFresh(kind: Kind, steps: seq<Step>, s': State)
    requires forall step <- steps :: step.Admit? ==> step.id.Uint64? && step.id.u < TWO_63
    requires forall i, j | 0 <= i < j < |steps| :: steps[i].Admit? && steps[j].Admit? ==> steps[i] != steps[j]
    requires Reaches(Init(kind), steps, s')
    ensures DistinctKeys(s') && AllFresh(Init(kind), steps)
  {
    var ids := AdmittedIds(steps);
    AdmittedAreOf(steps);
    AdmittedOnce(steps);
    KeysComeFromIds(kind, steps, s');
    forall j: nat, k: nat | j < k < |s'.calls| ensures s'.calls[j].key != s'.calls[k].key {
      assert Admit(ids[j]) in steps && Admit(ids[k]) in steps;
      NumericIdsKeepNumber(ids[j]);
      NumericIdsKeepNumber(ids[k]);
    }
    DistinctKeysWereFresh(Init(kind), steps, s');
  }

  lemma {:induction false} AdmittedOnce(steps: seq<Step>)
    requires forall i, j | 0 <= i < j < |steps| :: steps[i].Admit? && steps[j].Admit? ==> steps[i] != steps[j]
    ensures forall i, j | 0 <= i < j < |AdmittedIds(steps)| :: AdmittedIds(steps)[i] != AdmittedIds(steps)[j]
  {
    if steps != [] {
      AdmittedOnce(steps[1..]);
      AdmittedAreOf(steps[1..]);
      var rest := AdmittedIds(steps[1..]);
      forall i | 0 <= i < |rest| ensures steps[0] != Admit(rest[i]) {
        assert rest[i] in rest;
        var j :| 0 <= j < |steps[1..]| && steps[1..][j] == Admit(rest[i]);
        assert steps[j + 1] == Admit(rest[i]);
      }
    }
  }
}
