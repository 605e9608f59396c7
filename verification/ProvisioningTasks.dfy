/**
 Provisioning tasks: created, executed device by device, and cancelled or deleted at any moment
 between.  The maps and the tasks change only under one lock, so a run is a sequence of
 atomic operations.
 */
module ProvisioningTasks {

  datatype Status = Pending | Running | Completed | Failed | Canceled

  datatype Outcome = Success | Skipped | Failure

  /** A task with its progress, which are always created, looked up and deleted together. */
  datatype Task = Task(
    id: string, template: string, devices: seq<string>, status: Status,
    completed: nat, failed: nat, skipped: nat, results: map<string, Outcome>)

  function NewTask(id: string, template: string, devices: seq<string>): Task {
    Task(id, template, devices, Pending, 0, 0, 0, map[])
  }

  /** Store one device's outcome. */
  function Record(t: Task, device: string, o: Outcome): Task {
    var u := t.(results := t.results[device := o]);
    match o
    case Success => u.(completed := t.completed + 1)
    case Skipped => u.(skipped := t.skipped + 1)
    case Failure => u.(failed := t.failed + 1)
  }

  function Closed(t: Task): Task {
    t.(status := if t.failed > 0 && t.completed == 0 then Failed else Completed)
  }

  // ------------------------------------------------------------- what a task should report

  function Tally(log: seq<Outcome>, o: Outcome): nat {
    if log == [] then 0 else Tally(log[..|log| - 1], o) + if log[|log| - 1] == o then 1 else 0
  }

  /** The last outcome of each device among the first ones. */
  function Outcomes(devices: seq<string>, log: seq<Outcome>): (m: map<string, Outcome>)
    requires |log| <= |devices|
    ensures m.Keys == set d | d in devices[..|log|]
  {
    if log == [] then map[]
    else
      var n := |log| - 1;
      assert devices[..n + 1] == devices[..n] + [devices[n]];
      Outcomes(devices, log[..n])[devices[n] := log[n]]
  }

  /** The status a task ends with, by the outcomes of all its devices. */
  function Verdict(log: seq<Outcome>): Status {
    if Failure in log && Success !in log then Failed else Completed
  }

  lemma {:induction false} TallyPositive(log: seq<Outcome>, o: Outcome)
    ensures Tally(log, o) > 0 <==> o in log
  {
    if log != [] {
      TallyPositive(log[..|log| - 1], o);
      assert log == log[..|log| - 1] + [log[|log| - 1]];
    }
  }

  lemma {:induction false} TalliesSum(log: seq<Outcome>)
    ensures Tally(log, Success) + Tally(log, Skipped) + Tally(log, Failure) == |log|
  {
    if log != [] {
      TalliesSum(log[..|log| - 1]);
    }
  }

  /** The task's progress is that of the log. */
  ghost predicate Reports(t: Task, log: seq<Outcome>) {
    && |log| <= |t.devices|
    && t.completed == Tally(log, Success) && t.skipped == Tally(log, Skipped) && t.failed == Tally(log, Failure)
    && t.results == Outcomes(t.devices, log)
  }

  lemma RecordReports(t: Task, log: seq<Outcome>, o: Outcome)
    requires Reports(t, log) && |log| < |t.devices|
    ensures Reports(Record(t, t.devices[|log|], o), log + [o])
  {
    assert (log + [o])[..|log|] == log;
  }

  lemma ClosedIsVerdict(t: Task, log: seq<Outcome>)
    requires Reports(t, log)
    ensures Closed(t).status == Verdict(log)
  {
    TallyPositive(log, Success);
    TallyPositive(log, Failure);
  }

  // --------------------------------------------------------------------------- the manager

  /** A task object that was ever created: whether an execution holds it, how often one began,
      and the outcomes it recorded.  An execution keeps its task after the task is deleted or
      its id is given to another. */
  datatype Cell = Cell(task: Task, executing: bool, starts: nat, log: seq<Outcome>)

  datatype State = State(templates: set<string>, tasks: map<string, nat>, cells: seq<Cell>)

  const EMPTY: State := State({}, map[], [])

  datatype Op =
    | AddTemplate(template: string)
    | DeleteTemplate(template: string)
    | CreateTask(id: string, template: string, devices: seq<string>)
    | DeleteTask(id: string)
    | CancelTask(id: string)
    | Begin(id: string)
    | Process(cell: nat, outcome: Outcome)
    | ContextEnds(cell: nat)
    | Finish(cell: nat)

  /** The status a task must have for cancelling. */
  predicate Cancellable(s: State, id: string) {
    id in s.tasks && s.tasks[id] < |s.cells| && s.cells[s.tasks[id]].task.status in {Running, Pending}
  }

  predicate CanBegin(s: State, id: string) {
    id in s.tasks && s.tasks[id] < |s.cells|
    && s.cells[s.tasks[id]].task.status == Pending && s.cells[s.tasks[id]].task.template in s.templates
  }

  function CellAfterProcess(c: Cell, o: Outcome): Cell {
    if c.executing && |c.log| < |c.task.devices|
    then c.(task := Record(c.task, c.task.devices[|c.log|], o), log := c.log + [o])
    else c
  }

  function CellAfterContext(c: Cell): Cell {
    if c.executing && |c.log| < |c.task.devices| then c.(task := c.task.(status := Canceled), executing := false) else c
  }

  function CellAfterFinish(c: Cell): Cell {
    if c.executing && |c.log| >= |c.task.devices| then c.(task := Closed(c.task), executing := false) else c
  }

  function CellAfterBegin(c: Cell): Cell {
    c.(task := c.task.(status := Running), executing := true, starts := c.starts + 1)
  }

  function CellAfterCancel(c: Cell): Cell {
    c.(task := c.task.(status := Canceled))
  }

  function WithCell(s: State, i: nat, c: Cell): State
    requires i < |s.cells|
  {
    s.(cells := s.cells[i := c])
  }

  /** A step of the execution that holds a cell. */
  function CellAfter(c: Cell, op: Op): Cell {
    match op
    case Process(_, o) => CellAfterProcess(c, o)
    case ContextEnds(_) => CellAfterContext(c)
    case Finish(_) => CellAfterFinish(c)
    case _ => c
  }

  function Executed(s: State, i: nat, op: Op): State {
    if i < |s.cells| then WithCell(s, i, CellAfter(s.cells[i], op)) else s
  }

  /** An operation that the manager refuses, or that no execution can take, changes nothing. */
  function Apply(s: State, op: Op): State {
    match op
    case AddTemplate(t) => s.(templates := s.templates + {t})
    case DeleteTemplate(t) => s.(templates := s.templates - {t})
    case CreateTask(id, t, devices) =>
      if t !in s.templates then s
      else s.(tasks := s.tasks[id := |s.cells|], cells := s.cells + [Cell(NewTask(id, t, devices), false, 0, [])])
    case DeleteTask(id) => s.(tasks := s.tasks - {id})
    case CancelTask(id) =>
      if Cancellable(s, id) then WithCell(s, s.tasks[id], CellAfterCancel(s.cells[s.tasks[id]])) else s
    case Begin(id) =>
      if CanBegin(s, id) then WithCell(s, s.tasks[id], CellAfterBegin(s.cells[s.tasks[id]])) else s
    case Process(i, _) => Executed(s, i, op)
    case ContextEnds(i) => Executed(s, i, op)
    case Finish(i) => Executed(s, i, op)
  }

  function ApplyAll(s: State, ops: seq<Op>): State
    decreases |ops|
  {
    if ops == [] then s else ApplyAll(Apply(s, ops[0]), ops[1..])
  }

  /** A task is created, if its template exists, as asked for: pending, with these devices and
      nothing done; whatever task had the id before is left to its execution. */
  lemma CreatedAsAsked(s: State, id: string, template: string, devices: seq<string>)
    ensures
      var s' := Apply(s, CreateTask(id, template, devices));
      if template !in s.templates then s' == s
      else
        var n := |s.cells|;
        && |s'.cells| == n + 1 && s'.cells[..n] == s.cells
        && s'.tasks.Keys == s.tasks.Keys + {id} && s'.tasks[id] == n
        && (forall x | x in s.tasks && x != id :: s'.tasks[x] == s.tasks[x])
        && var t := s'.cells[n].task;
           && t.id == id && t.template == template && t.devices == devices && t.status == Pending
           && t.completed == t.failed == t.skipped == 0 && t.results == map[]
           && !s'.cells[n].executing && s'.cells[n].starts == 0
  {
  }

  /** An execution begins, only for a pending task whose template exists, by turning it running. */
  lemma BeginsOnlyPending(s: State, op: Op, i: nat)
    requires i < |s.cells|
    ensures i < |Apply(s, op).cells|
    ensures
      Apply(s, op).cells[i].starts > s.cells[i].starts <==>
      && op.Begin? && op.id in s.tasks && s.tasks[op.id] == i
      && s.cells[i].task.status == Pending && s.cells[i].task.template in s.templates
    ensures Apply(s, op).cells[i].starts > s.cells[i].starts ==>
              Apply(s, op).cells[i].executing && Apply(s, op).cells[i].task.status == Running
  {
    if !op.Begin? {
      OnlyBeginStarts(s, op, i);
    }
  }

  lemma OnlyBeginStarts(s: State, op: Op, i: nat)
    requires i < |s.cells| && !op.Begin?
    ensures i < |Apply(s, op).cells| && Apply(s, op).cells[i].starts == s.cells[i].starts
  {
  }

  // -------------------------------------------------------------------------- the invariant

  /** A pending task has not begun; at most one execution ever begins; the progress is that of
      the outcomes so far; and a task is completed or failed only after all its devices, by the
      verdict on them. */
  ghost predicate CellInv(c: Cell) {
    && Reports(c.task, c.log)
    && c.starts <= 1
    && (c.executing ==> c.starts == 1 && c.task.status in {Running, Canceled})
    && (c.starts == 0 ==> !c.executing && c.log == [] && c.task.status in {Pending, Canceled})
    && (c.task.status == Pending ==> c.starts == 0)
    && (c.task.status == Running ==> c.executing)
    && (c.task.status in {Completed, Failed} ==>
          c.starts == 1 && !c.executing && |c.log| == |c.task.devices| && c.task.status == Verdict(c.log))
  }

  ghost predicate Inv(s: State) {
    && (forall id <- s.tasks :: s.tasks[id] < |s.cells| && s.cells[s.tasks[id]].task.id == id)
    && (forall i | 0 <= i < |s.cells| :: CellInv(s.cells[i]))
  }

  /** One cell's step: it keeps the invariant and the task's identity, never goes back to pending,
      never loses outcomes, and never leaves completed or failed. */
  ghost predicate Grows(c: Cell, d: Cell) {
    && CellInv(d)
    && d.task.id == c.task.id && d.task.devices == c.task.devices
    && (d.task.status == Pending ==> c.task.status == Pending)
    && (c.task.status in {Completed, Failed} ==> d == c)
    && c.starts <= d.starts && c.log <= d.log
    && (c.starts == 0 && c.task.status == Canceled ==> d == c)
  }

  lemma ProcessGrows(c: Cell, o: Outcome)
    requires CellInv(c)
    ensures Grows(c, CellAfterProcess(c, o))
  {
    if c.executing && |c.log| < |c.task.devices| {
      RecordReports(c.task, c.log, o);
    }
  }

  lemma OthersGrow(c: Cell)
    requires CellInv(c)
    ensures Grows(c, CellAfterContext(c)) && Grows(c, CellAfterFinish(c))
    ensures c.task.status == Pending ==> Grows(c, CellAfterBegin(c))
    ensures c.task.status in {Running, Pending} ==> Grows(c, CellAfterCancel(c))
  {
    ClosedIsVerdict(c.task, c.log);
  }

  ghost predicate Extends(s: State, t: State) {
    |s.cells| <= |t.cells| && forall i | 0 <= i < |s.cells| :: Grows(s.cells[i], t.cells[i])
  }

  lemma StaysPut(s: State)
    requires Inv(s)
    ensures Extends(s, s)
  {
    assert forall i | 0 <= i < |s.cells| :: CellInv(s.cells[i]);
  }

  lemma CellStep(s: State, i: nat, c: Cell)
    requires Inv(s) && i < |s.cells| && Grows(s.cells[i], c)
    ensures Inv(WithCell(s, i, c)) && Extends(s, WithCell(s, i, c))
  {
  }

  /** Every operation keeps the invariant, and every task ever created only goes forward. */
  lemma StepGrows(s: State, op: Op)
    requires Inv(s)
    ensures Inv(Apply(s, op)) && Extends(s, Apply(s, op))
  {
    if op.CreateTask? {
      CreateGrows(s, op.id, op.template, op.devices);
    } else if op.AddTemplate? || op.DeleteTemplate? || op.DeleteTask? {
      StaysPut(s);
    } else if op.CancelTask? || op.Begin? {
      IdStepGrows(s, op);
    } else {
      CellStepGrows(s, op);
    }
  }

  lemma IdStepGrows(s: State, op: Op)
    requires Inv(s) && (op.CancelTask? || op.Begin?)
    ensures Inv(Apply(s, op)) && Extends(s, Apply(s, op))
  {
    StaysPut(s);
    if op.id in s.tasks {
      var i := s.tasks[op.id];
      OthersGrow(s.cells[i]);
      if op.CancelTask? && Cancellable(s, op.id) {
        CellStep(s, i, CellAfterCancel(s.cells[i]));
      }
      if op.Begin? && CanBegin(s, op.id) {
        CellStep(s, i, CellAfterBegin(s.cells[i]));
      }
    }
  }

  lemma CellStepGrows(s: State, op: Op)
    requires Inv(s) && (op.Process? || op.ContextEnds? || op.Finish?)
    ensures Inv(Apply(s, op)) && Extends(s, Apply(s, op))
  {
    assert Apply(s, op) == Executed(s, op.cell, op);
    StaysPut(s);
    if op.cell < |s.cells| {
      CellAfterGrows(s.cells[op.cell], op);
      CellStep(s, op.cell, CellAfter(s.cells[op.cell], op));
    }
  }

  lemma CellAfterGrows(c: Cell, op: Op)
    requires CellInv(c)
    ensures Grows(c, CellAfter(c, op))
  {
    OthersGrow(c);
    if op.Process? {
      ProcessGrows(c, op.outcome);
    }
  }

  lemma CreateGrows(s: State, id: string, template: string, devices: seq<string>)
    requires Inv(s)
    ensures Inv(Apply(s, CreateTask(id, template, devices)))
    ensures Extends(s, Apply(s, CreateTask(id, template, devices)))
  {
    StaysPut(s);
    assert CellInv(Cell(NewTask(id, template, devices), false, 0, []));
  }

  lemma GrowsOn(a: Cell, b: Cell, c: Cell)
    requires Grows(a, b) && Grows(b, c)
    ensures Grows(a, c)
  {
  }

  /** Over every run from any reachable state, likewise. */
  lemma {:induction false} RunGrows(s: State, ops: seq<Op>)
    requires Inv(s)
    ensures Inv(ApplyAll(s, ops)) && Extends(s, ApplyAll(s, ops))
    decreases |ops|
  {
    if ops == [] {
      StaysPut(s);
    } else {
      var s1, s2 := Apply(s, ops[0]), ApplyAll(s, ops);
      StepGrows(s, ops[0]);
      RunGrows(s1, ops[1..]);
      forall i | 0 <= i < |s.cells| ensures Grows(s.cells[i], s2.cells[i]) {
        GrowsOn(s.cells[i], s1.cells[i], s2.cells[i]);
      }
    }
  }

  /** What a reader of a task sees in every run: at most one execution, counters that add up to
      the devices processed, a result for exactly the ids processed, and an end status that is
      failed exactly if some device failed and none succeeded, with all devices processed. */
  lemma EveryTaskAddsUp(ops: seq<Op>, i: nat)
    requires i < |ApplyAll(EMPTY, ops).cells|
    ensures
      var c := ApplyAll(EMPTY, ops).cells[i];
      && c.starts <= 1 && |c.log| <= |c.task.devices|
      && c.task.completed + c.task.failed + c.task.skipped == |c.log|
      && c.task.results.Keys == (set d | d in c.task.devices[..|c.log|])
      && (forall k | 0 <= k < |c.log| && LastOf(c.task.devices, k, |c.log|) ::
            c.task.devices[k] in c.task.results && c.task.results[c.task.devices[k]] == c.log[k])
      && (c.task.status in {Completed, Failed} ==>
            && |c.log| == |c.task.devices|
            && (c.task.status == Failed <==> c.task.failed > 0 && c.task.completed == 0))
  {
    RunGrows(EMPTY, ops);
    var c := ApplyAll(EMPTY, ops).cells[i];
    assert CellInv(c);
    TalliesSum(c.log);
    TallyPositive(c.log, Success);
    TallyPositive(c.log, Failure);
    forall k | 0 <= k < |c.log| && LastOf(c.task.devices, k, |c.log|)
      ensures c.task.devices[k] in c.task.results && c.task.results[c.task.devices[k]] == c.log[k]
    {
      OutcomesAreLast(c.task.devices, c.log, k);
    }
  }

  /** No later one of the first n devices is the k-th again. */
  predicate LastOf(devices: seq<string>, k: nat, n: nat)
    requires k < n <= |devices|
  {
    forall j | k < j < n :: devices[j] != devices[k]
  }

  lemma {:induction false} OutcomesAreLast(devices: seq<string>, log: seq<Outcome>, k: nat)
    requires k < |log| <= |devices| && LastOf(devices, k, |log|)
    ensures devices[k] in Outcomes(devices, log) && Outcomes(devices, log)[devices[k]] == log[k]
  {
    if k < |log| - 1 {
      OutcomesAreLast(devices, log[..|log| - 1], k);
    }
  }

  /** Processing a device appends its outcome to the log of the execution that holds the task, and
      touches no other task. */
  lemma ProcessLogs(s: State, i: nat, o: Outcome)
    requires i < |s.cells| && s.cells[i].executing && |s.cells[i].log| < |s.cells[i].task.devices|
    ensures
      var s' := Apply(s, Process(i, o));
      && |s'.cells| == |s.cells| && s'.cells[i].log == s.cells[i].log + [o] && s'.cells[i].executing
      && s'.tasks == s.tasks && s'.templates == s.templates
      && forall j | 0 <= j < |s.cells| && j != i :: s'.cells[j] == s.cells[j]
  {
  }

  /** When its context ends before all devices are processed an execution stops and the task is
      cancelled, with the outcomes so far; no other task changes.  Without an execution, or once all
      devices are processed, the context's end changes nothing. */
  lemma ContextEndStops(s: State, i: nat)
    requires i < |s.cells|
    ensures
      var c, s' := s.cells[i], Apply(s, ContextEnds(i));
      && |s'.cells| == |s.cells| && s'.tasks == s.tasks && s'.templates == s.templates
      && (forall j | 0 <= j < |s.cells| && j != i :: s'.cells[j] == s.cells[j])
      && if c.executing && |c.log| < |c.task.devices| then
           && !s'.cells[i].executing && s'.cells[i].task == c.task.(status := Canceled)
           && s'.cells[i].log == c.log && s'.cells[i].starts == c.starts
         else s'.cells[i] == c
  {
  }

  /** Deleting a task takes its id away and leaves everything else, an execution of it included;
      templates come and go likewise. */
  lemma DeletesOnlyThat(s: State, id: string, template: string)
    ensures
      var s' := Apply(s, DeleteTask(id));
      && s'.tasks.Keys == s.tasks.Keys - {id} && (forall x <- s'.tasks :: s'.tasks[x] == s.tasks[x])
      && s'.cells == s.cells && s'.templates == s.templates
    ensures
      var s' := Apply(s, DeleteTemplate(template));
      (forall x :: x in s'.templates <==> x in s.templates && x != template) && s' == s.(templates := s'.templates)
    ensures
      var s' := Apply(s, AddTemplate(template));
      (forall x :: x in s'.templates <==> x in s.templates || x == template) && s' == s.(templates := s'.templates)
  {
  }

  // -------------------------------------------------------------------- whether a cancel holds

  /** The steps left to an execution when every device succeeds from here. */
  function Rest(i: nat, left: nat): (ops: seq<Op>)
    ensures |ops| == left + 1
  {
    if left == 0 then [Finish(i)] else [Process(i, Success)] + Rest(i, left - 1)
  }

  lemma {:induction false} RestFinishes(s: State, i: nat, left: nat)
    requires Inv(s) && i < |s.cells| && s.cells[i].executing
    requires left == |s.cells[i].task.devices| - |s.cells[i].log|
    ensures i < |ApplyAll(s, Rest(i, left)).cells|
    ensures ApplyAll(s, Rest(i, left)).cells[i].task.status in {Completed, Failed}
    decreases left
  {
    var ops := Rest(i, left);
    StepGrows(s, ops[0]);
    if left == 0 {
      assert ApplyAll(s, ops) == Apply(s, ops[0]);
    } else {
      assert ops[1..] == Rest(i, left - 1);
      RestFinishes(Apply(s, ops[0]), i, left - 1);
    }
  }

  ghost predicate CanceledForGood(s: State, i: nat) {
    forall ops: seq<Op> {:trigger ApplyAll(s, ops)} ::
      i < |ApplyAll(s, ops).cells| && ApplyAll(s, ops).cells[i].task.status == Canceled
  }

  /** Cancelling reports success for a running task too, but the execution goes on and overwrites
      the status: a cancel holds in every continuation if and only if the task had not begun. */
  lemma CancelHoldsIffPending(s: State, id: string)
    requires Inv(s) && Cancellable(s, id)
    ensures CanceledForGood(Apply(s, CancelTask(id)), s.tasks[id]) <==> s.cells[s.tasks[id]].task.status == Pending
  {
    var s1, i := Apply(s, CancelTask(id)), s.tasks[id];
    StepGrows(s, CancelTask(id));
    assert CellInv(s.cells[i]);
    if s.cells[i].task.status == Pending {
      forall ops: seq<Op>
        ensures i < |ApplyAll(s1, ops).cells| && ApplyAll(s1, ops).cells[i].task.status == Canceled
      {
        RunGrows(s1, ops);
        assert Grows(s1.cells[i], ApplyAll(s1, ops).cells[i]);
      }
    } else {
      var left := |s1.cells[i].task.devices| - |s1.cells[i].log|;
      RestFinishes(s1, i, left);
      assert ApplyAll(s1, Rest(i, left)).cells[i].task.status != Canceled;
    }
  }

  /** A run in which a running task is cancelled, the cancel is accepted, and the task completes. */
  lemma CancelIsOverwritten()
    ensures
      var s := ApplyAll(EMPTY, [AddTemplate("t"), CreateTask("x", "t", ["d"]), Begin("x"), CancelTask("x")]);
      && |s.cells| == 1 && s.cells[0].task.status == Canceled
      && var s' := ApplyAll(s, [Process(0, Success), Finish(0)]);
         |s'.cells| == 1 && s'.cells[0].task.status == Completed
  {
    var ops := [AddTemplate("t"), CreateTask("x", "t", ["d"]), Begin("x"), CancelTask("x")];
    var s1 := Apply(EMPTY, ops[0]);
    var s2 := Apply(s1, ops[1]);
    var s3 := Apply(s2, ops[2]);
    var s4 := Apply(s3, ops[3]);
    assert ops[1..] == [ops[1], ops[2], ops[3]] && ops[1..][1..] == [ops[2], ops[3]];
    assert ops[1..][1..][1..] == [ops[3]] && ops[1..][1..][1..][1..] == [];
    assert ApplyAll(EMPTY, ops) == s4;
    var rest := [Process(0, Success), Finish(0)];
    assert rest[1..] == [Finish(0)] && rest[1..][1..] == [];
    var s5 := Apply(s4, rest[0]);
    assert ApplyAll(s4, rest) == Apply(s5, rest[1]);
  }

  // ------------------------------------------------------------------------------- the object

  /** What an execution finds at a device: whether the context has ended, whether someone cancels
      the task meanwhile, and how provisioning goes. */
  datatype Turn = Turn(contextDone: bool, cancel: bool, outcome: Outcome)

  function OutcomesOf(env: nat -> Turn, n: nat): (log: seq<Outcome>)
    ensures |log| == n && forall i | 0 <= i < n :: log[i] == env(i).outcome
  {
    seq(n, i requires 0 <= i < n => env(i).outcome)
  }

  lemma OneOutcomeMore(env: nat -> Turn, n: nat)
    ensures OutcomesOf(env, n + 1) == OutcomesOf(env, n) + [env(n).outcome]
  {
  }

  class ProvisioningTask {
    const id: string
    const template: string
    const devices: seq<string>
    var status: Status
    var completed: nat
    var failed: nat
    var skipped: nat
    var results: map<string, Outcome>

    ghost function Contents(): Task
      reads this
    {
      Task(id, template, devices, status, completed, failed, skipped, results)
    }

    constructor (id: string, template: string, devices: seq<string>)
      ensures Contents() == NewTask(id, template, devices)
    {
      this.id, this.template, this.devices := id, template, devices;
      status, completed, failed, skipped, results := Pending, 0, 0, 0, map[];
    }

    method Cancel() returns (ok: bool)
      modifies this
      ensures ok <==> old(status) in {Running, Pending}
      ensures Contents() == if ok then old(Contents()).(status := Canceled) else old(Contents())
    {
      ok := status == Running || status == Pending;
      if ok {
        status := Canceled;
      }
    }

    method StoreResult(device: string, outcome: Outcome)
      modifies this
      ensures Contents() == Record(old(Contents()), device, outcome)
    {
      results := results[device := outcome];
      match outcome
      case Success => completed := completed + 1;
      case Skipped => skipped := skipped + 1;
      case Failure => failed := failed + 1;
    }

    method ProcessDevice(device: string, turn: Turn, ghost log: seq<Outcome>, ghost next: seq<Outcome>)
      requires Reports(Contents(), log) && |log| < |devices| && device == devices[|log|]
      requires next == log + [turn.outcome]
      modifies this
      ensures Reports(Contents(), next)
    {
      if turn.cancel {
        var canceled := Cancel();
      }
      RecordReports(Contents(), log, turn.outcome);
      StoreResult(device, turn.outcome);
    }

    /** Execute a pending task; done counts the devices processed before the context ended.  What
        cancels come between does not matter. */
    method Execute(env: nat -> Turn) returns (ok: bool, done: nat)
      requires Reports(Contents(), [])
      modifies this
      ensures old(status) != Pending ==> !ok && done == 0 && Contents() == old(Contents())
      ensures old(status) == Pending ==>
                && done <= |devices| && (forall i: nat | i < done :: !env(i).contextDone)
                && (ok <==> done == |devices|) && (!ok ==> env(done).contextDone)
                && Reports(Contents(), OutcomesOf(env, done))
                && status == if ok then Verdict(OutcomesOf(env, done)) else Canceled
    {
      if status != Pending {
        return false, 0;
      }
      status := Running;
      done := 0;
      assert OutcomesOf(env, 0) == [];
      while done < |devices|
        invariant done <= |devices|
        invariant forall i: nat | i < done :: !env(i).contextDone
        invariant Reports(Contents(), OutcomesOf(env, done))
      {
        if env(done).contextDone {
          status := Canceled;
          return false, done;
        }
        OneOutcomeMore(env, done);
        ProcessDevice(devices[done], env(done), OutcomesOf(env, done), OutcomesOf(env, done + 1));
        done := done + 1;
      }
      ClosedIsVerdict(Contents(), OutcomesOf(env, done));
      status := if failed > 0 && completed == 0 then Failed else Completed;
      return true, done;
    }
  }
}
