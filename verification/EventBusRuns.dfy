/**
 Interleavings on one event bus.  Publishing, subscribing and closing first look at the closed
 flag and then take their locks one after the other; registries lock their own list apart from
 the bus.  Each step below is one such section, so a sequence of steps is an interleaving of
 any number of goroutines, handlers that call back into the bus included.
 */
module EventBusRuns {
  import opened Wrappers
  import opened EventBus

  /** How far an operation has come. */
  datatype Task<E, F> =
    | Publishing(e: E)                            // past the closed check
    | Recorded(e: E)                              // past the history
    | Copied(e: E, subs: seq<Sub<F>>)             // with these of its copy left to deliver to
    | Subscribing(filter: F, owner: Option<nat>)  // past the closed check
    | Drawn(sub: Sub<F>, owner: Option<nat>)      // with its id, not yet in the list
    | Tracking(id: nat, registry: nat)            // in the list, not yet tracked
    | Closing                                     // the flag is up
    | ClosingHistory                              // the list is gone
    | Removing(registry: nat, id: nat)            // a registry's Unsubscribe, forgotten already
    | Dropping(registry: nat, ids: seq<nat>)      // an UnsubscribeAll with these ids left
    | Done

  /** The bus, what each registry tracks, and the operations begun.  No section reads the last
      three; the theorems compare the bus with them. */
  datatype State<E, F> = State(
    bus: Bus<E, F>,
    tracked: seq<seq<nat>>,
    tasks: seq<Task<E, F>>,
    recorded: seq<E>,         // the events recorded since the history was last emptied
    ordered: seq<Sub<F>>,     // the list as it were if removals kept the order
    owners: seq<Option<nat>>) // the registry that drew each id

  datatype Step<E, F> =
    | BeginPublish(e: E)
    | BeginSubscribe(filter: F, owner: Option<nat>)
    | BeginClose
    | UnsubscribeId(id: nat)
    | Clear
    | NewRegistry
    | RegistryUnsubscribe(registry: nat, id: nat)
    | UnsubscribeAll(registry: nat)
    | Advance(task: nat)

  function Init<E, F>(historySize: int): State<E, F> {
    State(NewBus(historySize), [], [], [], [], [None])
  }

  function Begun<E, F>(s: State<E, F>, task: Task<E, F>): State<E, F> {
    s.(tasks := s.tasks + [task])
  }

  /** Remove a subscription, and from the ordered list as well. */
  function Removed<E, F>(s: State<E, F>, id: nat): State<E, F> {
    s.(bus := Unsubscribe(s.bus, id), ordered := OrderedRemoval(s.ordered, id))
  }

  /** Where a new subscription goes next. */
  function AfterAppend<E, F>(id: nat, owner: Option<nat>): Task<E, F> {
    match owner
    case None => Done
    case Some(r) => Tracking(id, r)
  }

  /** The next section of a task, as it changes the rest of the state. */
  function Section<E, F>(s: State<E, F>, task: Task<E, F>): State<E, F> {
    match task
    case Publishing(e) =>
      s.(bus := Record(s.bus, e), recorded := if s.bus.historySize > 0 then s.recorded + [e] else s.recorded)
    case Subscribing(_, owner) => s.(bus := Draw(s.bus), owners := s.owners + [owner])
    case Drawn(sub, _) => s.(bus := Append(s.bus, sub), ordered := s.ordered + [sub])
    case Tracking(id, r) =>
      if r < |s.tracked| then s.(tracked := s.tracked[r := s.tracked[r] + [id]]) else s
    case Closing => s.(bus := ClearList(s.bus), ordered := [])
    case ClosingHistory => s.(bus := DropHistory(s.bus), recorded := [])
    case Removing(_, id) => Removed(s, id)
    case Dropping(_, ids) => if ids == [] then s else Removed(s, ids[0])
    case _ => s
  }

  /** What becomes of the task. */
  function Next<E, F>(s: State<E, F>, task: Task<E, F>): Task<E, F> {
    match task
    case Publishing(e) => Recorded(e)
    case Recorded(e) => Copied(e, s.bus.subs)
    case Copied(e, subs) => if subs == [] then Done else Copied(e, subs[1..])
    case Subscribing(filter, owner) => Drawn(Sub(s.bus.lastId + 1, filter), owner)
    case Drawn(sub, owner) => AfterAppend(sub.id, owner)
    case Closing => ClosingHistory
    case Dropping(r, ids) => if ids == [] then Done else Dropping(r, ids[1..])
    case _ => Done
  }

  function Moved<E, F>(s: State<E, F>, t: nat): State<E, F>
    requires t < |s.tasks|
  {
    Section(s, s.tasks[t]).(tasks := s.tasks[t := Next(s, s.tasks[t])])
  }

  function Apply<E, F>(s: State<E, F>, step: Step<E, F>): State<E, F> {
    match step
    case BeginPublish(e) => Begun(s, if s.bus.closed then Done else Publishing(e))
    case BeginSubscribe(filter, owner) =>
      if owner.Some? && owner.value >= |s.tracked| then s
      else Begun(s, if s.bus.closed then AfterAppend(0, owner) else Subscribing(filter, owner))
    case BeginClose =>
      if s.bus.closed then s else Begun(s.(bus := s.bus.(closed := true)), Closing)
    case UnsubscribeId(id) => Removed(s, id)
    case Clear => s.(bus := ClearHistory(s.bus), recorded := [])
    case NewRegistry => s.(tracked := s.tracked + [[]])
    case RegistryUnsubscribe(r, id) =>
      if r >= |s.tracked| then s
      else Begun(s.(tracked := s.tracked[r := Forget(s.tracked[r], id)]), Removing(r, id))
    case UnsubscribeAll(r) =>
      if r >= |s.tracked| then s
      else Begun(s.(tracked := s.tracked[r := []]), Dropping(r, s.tracked[r]))
    case Advance(t) => if t < |s.tasks| then Moved(s, t) else s
  }

  function Run<E, F>(s: State<E, F>, steps: seq<Step<E, F>>): State<E, F>
    decreases |steps|
  {
    if steps == [] then s else Run(Apply(s, steps[0]), steps[1..])
  }

  lemma RunOne<E, F>(s: State<E, F>, a: Step<E, F>)
    ensures Run(s, [a]) == Apply(s, a)
  {
    assert [a][1..] == [];
  }

  lemma RunTwo<E, F>(s: State<E, F>, a: Step<E, F>, b: Step<E, F>)
    ensures Run(s, [a, b]) == Apply(Apply(s, a), b)
  {
    assert [a, b][1..] == [b];
    RunOne(Apply(s, a), b);
  }

  lemma RunThree<E, F>(s: State<E, F>, a: Step<E, F>, b: Step<E, F>, c: Step<E, F>)
    ensures Run(s, [a, b, c]) == Apply(Apply(Apply(s, a), b), c)
  {
    assert [a, b, c][1..] == [b, c];
    RunTwo(Apply(s, a), b, c);
  }

  lemma {:induction false} RunConcat<E, F>(s: State<E, F>, a: seq<Step<E, F>>, b: seq<Step<E, F>>)
    ensures Run(s, a + b) == Run(Run(s, a), b)
    decreases |a|
  {
    if a == [] {
      assert a + b == b;
    } else {
      assert (a + b)[1..] == a[1..] + b;
      RunConcat(Apply(s, a[0]), a[1..], b);
    }
  }

  // ------------------------------------------------------------------------------- history

  ghost predicate HistoryInv<E, F>(s: State<E, F>) {
    s.bus.history == LastN(s.recorded, s.bus.historySize) && (s.bus.historySize <= 0 ==> s.recorded == [])
  }

  lemma HistorySection<E, F>(s: State<E, F>, task: Task<E, F>)
    requires HistoryInv(s)
    ensures HistoryInv(Section(s, task)) && Section(s, task).bus.historySize == s.bus.historySize
  {
    if task.Publishing? {
      RecordKeepsSuffix(s.bus, s.recorded, task.e);
    } else if !task.ClosingHistory? {
      assert Section(s, task).recorded == s.recorded;
    }
  }

  lemma HistoryStep<E, F>(s: State<E, F>, step: Step<E, F>)
    requires HistoryInv(s)
    ensures HistoryInv(Apply(s, step)) && Apply(s, step).bus.historySize == s.bus.historySize
  {
    if step.Advance? {
      if step.task < |s.tasks| {
        HistorySection(s, s.tasks[step.task]);
      }
    } else if !step.Clear? {
      assert Apply(s, step).recorded == s.recorded && Apply(s, step).bus.history == s.bus.history;
    }
  }

  /** In every interleaving the history is exactly the last historySize events recorded since it
      was last emptied, in the order in which its lock was taken. */
  lemma {:induction false} HistoryIsSuffix<E, F>(s: State<E, F>, steps: seq<Step<E, F>>)
    requires HistoryInv(s)
    ensures HistoryInv(Run(s, steps))
    decreases |steps|
  {
    if steps != [] {
      HistoryStep(s, steps[0]);
      HistoryIsSuffix(Apply(s, steps[0]), steps[1..]);
    }
  }

  /** The events recorded by a run since the history was last emptied, told from the sections
      that publishing, clearing and closing run under the history's lock. */
  function RecordedBy<E, F>(s: State<E, F>, steps: seq<Step<E, F>>, before: seq<E>): seq<E>
    decreases |steps|
  {
    if steps == [] then before
    else RecordedBy(Apply(s, steps[0]), steps[1..], RecordedNext(s, steps[0], before))
  }

  function RecordedNext<E, F>(s: State<E, F>, step: Step<E, F>, before: seq<E>): seq<E> {
    match step
    case Clear => []
    case Advance(t) =>
      if t >= |s.tasks| then before
      else if s.tasks[t].Publishing? then before + [s.tasks[t].e]
      else if s.tasks[t].ClosingHistory? then []
      else before
    case _ => before
  }

  lemma RecordedStep<E, F>(s: State<E, F>, step: Step<E, F>, before: seq<E>)
    requires s.bus.history == LastN(before, s.bus.historySize)
    ensures
      var s' := Apply(s, step);
      s'.bus.historySize == s.bus.historySize
      && s'.bus.history == LastN(RecordedNext(s, step, before), s.bus.historySize)
  {
    if step.Advance? && step.task < |s.tasks| {
      RecordedSection(s, s.tasks[step.task], before);
    }
  }

  lemma RecordedSection<E, F>(s: State<E, F>, task: Task<E, F>, before: seq<E>)
    requires s.bus.history == LastN(before, s.bus.historySize)
    ensures
      var after := if task.Publishing? then before + [task.e] else if task.ClosingHistory? then [] else before;
      && Section(s, task).bus.historySize == s.bus.historySize
      && Section(s, task).bus.history == LastN(after, s.bus.historySize)
  {
    if task.Publishing? {
      RecordKeepsSuffix(s.bus, before, task.e);
    }
  }

  lemma {:induction false} RecordedRun<E, F>(s: State<E, F>, steps: seq<Step<E, F>>, before: seq<E>)
    requires s.bus.history == LastN(before, s.bus.historySize)
    ensures Run(s, steps).bus.history == LastN(RecordedBy(s, steps, before), s.bus.historySize)
    decreases |steps|
  {
    if steps != [] {
      RecordedStep(s, steps[0], before);
      RecordedRun(Apply(s, steps[0]), steps[1..], RecordedNext(s, steps[0], before));
    }
  }

  /** Whatever runs on a new bus, its history is the last events recorded, as many as asked for. */
  lemma HistoryOfANewBus<E, F>(historySize: int, steps: seq<Step<E, F>>)
    ensures
      var s := Init<E, F>(historySize);
      Run(s, steps).bus.history == LastN(RecordedBy(s, steps, []), historySize)
  {
    RecordedRun(Init<E, F>(historySize), steps, []);
  }

  // ----------------------------------------------------------------------------------- ids

  /** Ids in the list are distinct, and those not yet in it differ from them and each other. */
  ghost predicate Numbered<E, F>(s: State<E, F>) {
    && DistinctIds(s.bus.subs)
    && (forall x <- s.bus.subs :: 1 <= x.id <= s.bus.lastId)
    && (forall t | 0 <= t < |s.tasks| && s.tasks[t].Drawn? :: DrawnOk(s, s.tasks[t].sub.id))
    && (forall t, u | 0 <= t < u < |s.tasks| && s.tasks[t].Drawn? && s.tasks[u].Drawn? ::
          s.tasks[t].sub.id != s.tasks[u].sub.id)
  }

  ghost predicate DrawnOk<E, F>(s: State<E, F>, id: nat) {
    1 <= id <= s.bus.lastId && forall x <- s.bus.subs :: x.id != id
  }

  /** The list only shrank, and no task drew an id. */
  ghost predicate NoNewIds<E, F>(s: State<E, F>, s': State<E, F>) {
    && s'.bus.lastId == s.bus.lastId
    && DistinctIds(s'.bus.subs)
    && (forall x <- s'.bus.subs :: x in s.bus.subs)
    && (forall t | 0 <= t < |s'.tasks| && s'.tasks[t].Drawn? :: t < |s.tasks| && s'.tasks[t] == s.tasks[t])
  }

  lemma RemovedKeeps<E, F>(s: State<E, F>, id: nat)
    requires Numbered(s)
    ensures NoNewIds(s, Removed(s, id))
  {
    RemovalRemovesOne(s.bus.subs, id);
  }

  lemma DrawKeeps<E, F>(s: State<E, F>, t: nat)
    requires Numbered(s) && t < |s.tasks| && s.tasks[t].Subscribing?
    ensures Numbered(Moved(s, t))
  {
    var s' := Moved(s, t);
    forall u | 0 <= u < |s'.tasks| && s'.tasks[u].Drawn? ensures DrawnOk(s', s'.tasks[u].sub.id) {
      if u != t {
        assert DrawnOk(s, s.tasks[u].sub.id);
      }
    }
    forall u, v | 0 <= u < v < |s'.tasks| && s'.tasks[u].Drawn? && s'.tasks[v].Drawn?
      ensures s'.tasks[u].sub.id != s'.tasks[v].sub.id
    {
      assert u != t ==> DrawnOk(s, s.tasks[u].sub.id);
      assert v != t ==> DrawnOk(s, s.tasks[v].sub.id);
    }
  }

  lemma AppendKeeps<E, F>(s: State<E, F>, t: nat)
    requires Numbered(s) && t < |s.tasks| && s.tasks[t].Drawn?
    ensures Numbered(Moved(s, t))
  {
    var s', sub := Moved(s, t), s.tasks[t].sub;
    assert DrawnOk(s, sub.id);
    forall i | 0 <= i < |s.bus.subs| ensures s.bus.subs[i].id != sub.id {
      assert s.bus.subs[i] in s.bus.subs;
    }
    forall u | 0 <= u < |s'.tasks| && s'.tasks[u].Drawn? ensures DrawnOk(s', s'.tasks[u].sub.id) {
      assert DrawnOk(s, s.tasks[u].sub.id);
    }
  }

  lemma NumberedMove<E, F>(s: State<E, F>, t: nat)
    requires Numbered(s) && t < |s.tasks|
    ensures Numbered(Moved(s, t)) && Moved(s, t).bus.lastId >= s.bus.lastId
  {
    var task := s.tasks[t];
    if task.Subscribing? {
      DrawKeeps(s, t);
    } else if task.Drawn? {
      AppendKeeps(s, t);
    } else {
      SectionWithoutIds(s, task);
    }
  }

  lemma SectionWithoutIds<E, F>(s: State<E, F>, task: Task<E, F>)
    requires Numbered(s) && !task.Subscribing? && !task.Drawn?
    ensures NoNewIds(s, Section(s, task)) && !Next(s, task).Drawn?
  {
    if task.Removing? {
      RemovedKeeps(s, task.id);
    } else if task.Dropping? && task.ids != [] {
      RemovedKeeps(s, task.ids[0]);
    }
  }

  lemma NumberedStep<E, F>(s: State<E, F>, step: Step<E, F>)
    requires Numbered(s)
    ensures Numbered(Apply(s, step)) && Apply(s, step).bus.lastId >= s.bus.lastId
  {
    if step.Advance? {
      if step.task < |s.tasks| {
        NumberedMove(s, step.task);
      }
    } else {
      if step.UnsubscribeId? {
        RemovedKeeps(s, step.id);
      }
      assert NoNewIds(s, Apply(s, step));
    }
  }

  lemma {:induction false} RunKeepsNumbering<E, F>(s: State<E, F>, steps: seq<Step<E, F>>)
    requires Numbered(s)
    ensures Numbered(Run(s, steps)) && Run(s, steps).bus.lastId >= s.bus.lastId
    decreases |steps|
  {
    if steps != [] {
      NumberedStep(s, steps[0]);
      RunKeepsNumbering(Apply(s, steps[0]), steps[1..]);
    }
  }

  /** An id drawn after any run differs from every id drawn before it, in the list or not. */
  lemma IdsNeverReused<E, F>(s: State<E, F>, steps: seq<Step<E, F>>, t: nat)
    requires Numbered(s) && t < |Run(s, steps).tasks| && Run(s, steps).tasks[t].Subscribing?
    ensures
      var late := Moved(Run(s, steps), t).tasks[t];
      && late.Drawn? && late.sub.id > s.bus.lastId
      && (forall x <- s.bus.subs :: x.id < late.sub.id)
      && (forall u | 0 <= u < |s.tasks| && s.tasks[u].Drawn? :: s.tasks[u].sub.id < late.sub.id)
  {
    RunKeepsNumbering(s, steps);
    forall u | 0 <= u < |s.tasks| && s.tasks[u].Drawn? ensures s.tasks[u].sub.id <= s.bus.lastId {
      assert DrawnOk(s, s.tasks[u].sub.id);
    }
  }

  // -------------------------------------------------------------------------------- closing

  predicate Empty<E, F>(b: Bus<E, F>) {
    |b.history| == 0 && |b.subs| == 0
  }

  /** The operation is past its closed check and will still add something. */
  predicate Late<E, F>(historySize: int, task: Task<E, F>) {
    (task.Publishing? && historySize > 0) || task.Subscribing? || task.Drawn?
  }

  ghost predicate NobodyLate<E, F>(s: State<E, F>) {
    forall t | 0 <= t < |s.tasks| :: !Late(s.bus.historySize, s.tasks[t])
  }

  /** On a closed bus nobody becomes late, and with nobody late nothing is added. */
  lemma ClosedStep<E, F>(s: State<E, F>, step: Step<E, F>)
    requires s.bus.closed && NobodyLate(s)
    ensures Apply(s, step).bus.closed && NobodyLate(Apply(s, step))
    ensures |s.bus.subs| == 0 ==> |Apply(s, step).bus.subs| == 0
    ensures |s.bus.history| == 0 ==> |Apply(s, step).bus.history| == 0
  {
    if step.Advance? {
      if step.task < |s.tasks| {
        var task := s.tasks[step.task];
        assert !Late(s.bus.historySize, task);
      }
    }
  }

  lemma {:induction false} StaysEmpty<E, F>(s: State<E, F>, steps: seq<Step<E, F>>)
    requires s.bus.closed && NobodyLate(s) && Empty(s.bus)
    ensures Empty(Run(s, steps).bus)
    decreases |steps|
  {
    if steps != [] {
      ClosedStep(s, steps[0]);
      StaysEmpty(Apply(s, steps[0]), steps[1..]);
    }
  }

  /** The sections a late operation has left until it adds something. */
  function FillSteps<E, F>(s: State<E, F>, t: nat): seq<Step<E, F>>
    requires t < |s.tasks|
  {
    if s.tasks[t].Subscribing? then [Advance(t), Advance(t)] else [Advance(t)]
  }

  lemma LateFills<E, F>(s: State<E, F>, t: nat)
    requires t < |s.tasks| && Late(s.bus.historySize, s.tasks[t])
    ensures
      var s' := Run(s, FillSteps(s, t));
      && !Empty(s'.bus)
      && |s'.tasks| == |s.tasks| && forall u | 0 <= u < |s.tasks| && u != t :: s'.tasks[u] == s.tasks[u]
  {
    if s.tasks[t].Subscribing? {
      RunTwo(s, Advance(t), Advance(t));
    } else {
      RunOne(s, Advance(t));
    }
  }

  ghost predicate EmptyForGood<E(!new), F(!new)>(s: State<E, F>) {
    forall steps: seq<Step<E, F>> {:trigger Run(s, steps)} :: Empty(Run(s, steps).bus)
  }

  /** A closed bus stays empty in every continuation if and only if it is empty and no publish
      or subscribe is past its closed check. */
  lemma StaysEmptyIffNobodyLate<E(!new), F(!new)>(s: State<E, F>)
    requires s.bus.closed
    ensures EmptyForGood(s) <==> Empty(s.bus) && NobodyLate(s)
  {
    if Empty(s.bus) && NobodyLate(s) {
      forall steps: seq<Step<E, F>> ensures Empty(Run(s, steps).bus) {
        StaysEmpty(s, steps);
      }
    } else if !Empty(s.bus) {
      assert Run(s, []) == s;
    } else {
      var t :| 0 <= t < |s.tasks| && Late(s.bus.historySize, s.tasks[t]);
      LateFills(s, t);
      assert !Empty(Run(s, FillSteps(s, t)).bus);
    }
  }

  /** How far Close at task t has come, with nobody late. */
  ghost predicate CloseInv<E, F>(s: State<E, F>, t: nat) {
    && s.bus.closed && NobodyLate(s) && t < |s.tasks|
    && (s.tasks[t].Closing? || s.tasks[t].ClosingHistory? || s.tasks[t].Done?)
    && (s.tasks[t].ClosingHistory? ==> |s.bus.subs| == 0)
    && (s.tasks[t].Done? ==> Empty(s.bus))
  }

  lemma CloseStep<E, F>(s: State<E, F>, step: Step<E, F>, t: nat)
    requires CloseInv(s, t)
    ensures CloseInv(Apply(s, step), t)
  {
    ClosedStep(s, step);
    var s' := Apply(s, step);
    if step == Advance(t) {
      assert s' == Moved(s, t);
    } else {
      assert s'.tasks[t] == s.tasks[t];
    }
  }

  lemma {:induction false} CloseRuns<E, F>(s: State<E, F>, steps: seq<Step<E, F>>, t: nat)
    requires CloseInv(s, t)
    ensures CloseInv(Run(s, steps), t)
    decreases |steps|
  {
    if steps != [] {
      CloseStep(s, steps[0], t);
      CloseRuns(Apply(s, steps[0]), steps[1..], t);
    }
  }

  /** Whenever Close has finished the bus is empty. */
  ghost predicate CloseEmpties<E(!new), F(!new)>(s: State<E, F>, t: nat) {
    forall steps: seq<Step<E, F>> {:trigger Run(s, steps)} ::
      t < |Run(s, steps).tasks| && (Run(s, steps).tasks[t].Done? ==> Empty(Run(s, steps).bus))
  }

  /** Closing an open bus leaves it empty, from when Close returns on and in every interleaving,
      if and only if no publish or subscribe is past its closed check when the flag goes up. */
  lemma CloseEmptiesIffNobodyLate<E(!new), F(!new)>(s: State<E, F>)
    requires !s.bus.closed
    ensures CloseEmpties(Apply(s, BeginClose), |s.tasks|) <==> NobodyLate(s)
  {
    var t, s1 := |s.tasks|, Apply(s, BeginClose);
    if NobodyLate(s) {
      forall steps: seq<Step<E, F>>
        ensures t < |Run(s1, steps).tasks| && (Run(s1, steps).tasks[t].Done? ==> Empty(Run(s1, steps).bus))
      {
        CloseRuns(s1, steps, t);
      }
    } else {
      var u :| 0 <= u < |s.tasks| && Late(s.bus.historySize, s.tasks[u]);
      var s3 := Apply(Apply(s1, Advance(t)), Advance(t));
      var close := [Advance(t), Advance(t)];
      RunTwo(s1, Advance(t), Advance(t));
      LateFills(s3, u);
      RunConcat(s1, close, FillSteps(s3, u));
      assert Run(s1, close + FillSteps(s3, u)).tasks[t].Done?;
    }
  }

  /** A publish that races with Close leaves its event in the history of a closed bus. */
  lemma PublishRacesWithClose()
    ensures
      var s := Run<nat, nat>(Init(1), [BeginPublish(7), BeginClose] + [Advance(1), Advance(1), Advance(0)]);
      s.bus.closed && |s.tasks| == 2 && s.tasks[1].Done? && s.bus.history == [7]
  {
    var s0: State<nat, nat> := Init(1);
    RunTwo(s0, BeginPublish(7), BeginClose);
    RunConcat(s0, [BeginPublish(7), BeginClose], [Advance(1), Advance(1), Advance(0)]);
    RunThree(Run(s0, [BeginPublish(7), BeginClose]), Advance(1), Advance(1), Advance(0));
  }

  /** A subscribe that races with Close leaves its subscription in the list of a closed bus. */
  lemma SubscribeRacesWithClose()
    ensures
      var s := Run<nat, nat>(
        Init(1), [BeginSubscribe(7, None), BeginClose, Advance(1)] + [Advance(1), Advance(0), Advance(0)]);
      s.bus.closed && |s.tasks| == 2 && s.tasks[1].Done? && s.bus.subs == [Sub(1, 7)]
  {
    var s0: State<nat, nat> := Init(1);
    var steps := [BeginSubscribe(7, None), BeginClose, Advance(1)];
    RunThree(s0, BeginSubscribe(7, None), BeginClose, Advance(1));
    RunConcat(s0, steps, [Advance(1), Advance(0), Advance(0)]);
    RunThree(Run(s0, steps), Advance(1), Advance(0), Advance(0));
  }

  // ---------------------------------------------------------------------- the order of calls

  /** The ordered list has the same subscriptions as the bus. */
  ghost predicate Balanced<E, F>(s: State<E, F>) {
    && DistinctIds(s.ordered)
    && (forall x <- s.ordered :: x in s.bus.subs)
    && (forall x <- s.bus.subs :: x in s.ordered)
  }

  lemma BalancedRemoval<E, F>(s: State<E, F>, id: nat)
    requires Numbered(s) && Balanced(s)
    ensures Balanced(Removed(s, id))
  {
    RemovalRemovesOne(s.bus.subs, id);
    OrderedRemovalRemovesOne(s.ordered, id);
  }

  lemma BalancedSection<E, F>(s: State<E, F>, task: Task<E, F>)
    requires Numbered(s) && Balanced(s) && (task.Drawn? ==> DrawnOk(s, task.sub.id))
    ensures Balanced(Section(s, task))
  {
    if task.Removing? {
      BalancedRemoval(s, task.id);
    } else if task.Dropping? {
      if task.ids != [] {
        BalancedRemoval(s, task.ids[0]);
      }
    } else if task.Drawn? {
      forall i | 0 <= i < |s.ordered| ensures s.ordered[i].id != task.sub.id {
        assert s.ordered[i] in s.bus.subs;
      }
    } else {
      assert Section(s, task).bus.subs == s.bus.subs || task.Closing?;
    }
  }

  lemma BalancedStep<E, F>(s: State<E, F>, step: Step<E, F>)
    requires Numbered(s) && Balanced(s)
    ensures Balanced(Apply(s, step))
  {
    if step.Advance? {
      if step.task < |s.tasks| {
        BalancedSection(s, s.tasks[step.task]);
      }
    } else if step.UnsubscribeId? {
      BalancedRemoval(s, step.id);
    } else {
      assert Apply(s, step).bus.subs == s.bus.subs && Apply(s, step).ordered == s.ordered;
    }
  }

  predicate InOrder<E(==), F(==)>(s: State<E, F>) {
    s.bus.subs == s.ordered
  }

  /** The id whose subscription a task's next section removes, if any. */
  function TaskRemoves<E, F>(task: Task<E, F>): Option<nat> {
    if task.Removing? then Some(task.id)
    else if task.Dropping? && task.ids != [] then Some(task.ids[0])
    else None
  }

  function StepRemoves<E, F>(s: State<E, F>, step: Step<E, F>): Option<nat> {
    match step
    case UnsubscribeId(id) => Some(id)
    case Advance(t) => if t < |s.tasks| then TaskRemoves(s.tasks[t]) else None
    case _ => None
  }

  /** Nothing is removed, or one of the last two of the list. */
  predicate AtMostNearEnd<F>(subs: seq<Sub<F>>, id: Option<nat>) {
    id.Some? ==> NearEnd(subs, id.value)
  }

  predicate Gentle<E, F>(s: State<E, F>, step: Step<E, F>) {
    AtMostNearEnd(s.bus.subs, StepRemoves(s, step))
  }

  lemma RemovedInOrder<E, F>(s: State<E, F>, id: nat)
    requires DistinctIds(s.bus.subs) && InOrder(s)
    ensures InOrder(Removed(s, id)) <==> NearEnd(s.bus.subs, id)
  {
    OrderKeptIffNearEnd(s.bus.subs, id);
  }

  lemma InOrderSection<E, F>(s: State<E, F>, task: Task<E, F>)
    requires DistinctIds(s.bus.subs) && InOrder(s)
    ensures InOrder(Section(s, task)) <==> AtMostNearEnd(s.bus.subs, TaskRemoves(task))
  {
    if task.Removing? {
      RemovedInOrder(s, task.id);
    } else if task.Dropping? && task.ids != [] {
      RemovedInOrder(s, task.ids[0]);
    } else {
      assert TaskRemoves(task) == None;
    }
  }

  /** A list in subscription order stays so through a step if and only if the step is gentle. */
  lemma InOrderIffGentle<E, F>(s: State<E, F>, step: Step<E, F>)
    requires Numbered(s) && InOrder(s)
    ensures InOrder(Apply(s, step)) <==> Gentle(s, step)
  {
    if step.Advance? {
      if step.task < |s.tasks| {
        InOrderSection(s, s.tasks[step.task]);
        assert InOrder(Moved(s, step.task)) <==> InOrder(Section(s, s.tasks[step.task]));
      }
    } else if step.UnsubscribeId? {
      RemovedInOrder(s, step.id);
    } else {
      assert Apply(s, step).bus.subs == s.bus.subs && Apply(s, step).ordered == s.ordered;
    }
  }

  ghost predicate AllGentle<E, F>(s: State<E, F>, steps: seq<Step<E, F>>)
    decreases |steps|
  {
    steps == [] || (Gentle(s, steps[0]) && AllGentle(Apply(s, steps[0]), steps[1..]))
  }

  /** While every removal hits one of the last two, each publish copies the list in subscription
      order. */
  lemma {:induction false} GentleRunsDeliverInOrder<E, F>(s: State<E, F>, steps: seq<Step<E, F>>, t: nat)
    requires Numbered(s) && InOrder(s) && AllGentle(s, steps)
    ensures
      var s' := Run(s, steps);
      && InOrder(s')
      && (t < |s'.tasks| && s'.tasks[t].Recorded? ==> Moved(s', t).tasks[t] == Copied(s'.tasks[t].e, s'.ordered))
    decreases |steps|
  {
    if steps != [] {
      NumberedStep(s, steps[0]);
      InOrderIffGentle(s, steps[0]);
      GentleRunsDeliverInOrder(Apply(s, steps[0]), steps[1..], t);
    }
  }

  lemma SameIds<F>(a: seq<Sub<F>>, b: seq<Sub<F>>)
    requires DistinctIds(b) && Ids(a) == Ids(b) && forall i | 0 <= i < |a| :: a[i] in b
    ensures a == b
  {
    forall i | 0 <= i < |a| ensures a[i] == b[i] {
      var k :| 0 <= k < |b| && b[k] == a[i];
      assert Ids(a)[i] == Ids(b)[i] && Ids(b)[k] == Ids(a)[i];
    }
  }

  /** Out of order, an event that every filter lets through is delivered in another order. */
  lemma MisorderIsSeen<E, F>(s: State<E, F>, e: E)
    requires Balanced(s) && !InOrder(s)
    ensures Matching(s.bus.subs, e, (_, _) => true) != Matching(s.ordered, e, (_, _) => true)
  {
    MatchAll(s.bus.subs, e);
    MatchAll(s.ordered, e);
    if Ids(s.bus.subs) == Ids(s.ordered) {
      SameIds(s.bus.subs, s.ordered);
    }
  }

  /** The first removal that hits an earlier place reorders what such an event is delivered to. */
  lemma FirstHarshRemovalReorders<E, F>(s: State<E, F>, steps: seq<Step<E, F>>, step: Step<E, F>, e: E)
    requires Numbered(s) && Balanced(s) && InOrder(s) && AllGentle(s, steps) && !Gentle(Run(s, steps), step)
    ensures
      var s' := Apply(Run(s, steps), step);
      Matching(s'.bus.subs, e, (_, _) => true) != Matching(s'.ordered, e, (_, _) => true)
  {
    GentleRunsDeliverInOrder(s, steps, 0);
    RunKeepsNumbering(s, steps);
    InOrderIffGentle(Run(s, steps), step);
    BalancedInOrder(Run(s, steps));
    BalancedStep(Run(s, steps), step);
    MisorderIsSeen(Apply(Run(s, steps), step), e);
  }

  lemma BalancedInOrder<E, F>(s: State<E, F>)
    requires Numbered(s) && InOrder(s)
    ensures Balanced(s)
  {
  }

  /** Three subscriptions of which the first is removed: an event goes to the third, then to the
      second. */
  lemma SwapReorders(e: nat)
    ensures
      var b := Subscribe(Subscribe(Subscribe<nat, nat>(NewBus(0), 10).0, 20).0, 30).0;
      && Delivered(b, e, (_, _) => true) == [1, 2, 3]
      && Delivered(Unsubscribe(b, 1), e, (_, _) => true) == [3, 2]
  {
    var b := Subscribe(Subscribe(Subscribe<nat, nat>(NewBus(0), 10).0, 20).0, 30).0;
    assert b.subs == [Sub(1, 10), Sub(2, 20), Sub(3, 30)];
    assert Ids(b.subs)[0] == 1;
    assert Unsubscribe(b, 1).subs == [Sub(3, 30), Sub(2, 20)];
    MatchAll(b.subs, e);
    MatchAll(Unsubscribe(b, 1).subs, e);
    assert Ids(b.subs) == [1, 2, 3] && Ids(Unsubscribe(b, 1).subs) == [3, 2];
  }

  /** With nothing in between, the sections of an operation make up the whole operation. */
  lemma UndisturbedPublish<E, F>(s: State<E, F>, e: E)
    ensures
      var t := |s.tasks|;
      var s' := Apply(Apply(Apply(s, BeginPublish(e)), Advance(t)), Advance(t));
      && s'.bus == Publish(s.bus, e)
      && s'.tasks == s.tasks + [if s.bus.closed then Done else Copied(e, s.bus.subs)]
  {
    var s1 := Apply(s, BeginPublish(e));
    assert s1.tasks == s.tasks + [if s.bus.closed then Done else Publishing(e)];
    var s2 := Apply(s1, Advance(|s.tasks|));
    assert s2.tasks == s.tasks + [if s.bus.closed then Done else Recorded(e)];
  }

  lemma UndisturbedSubscribe<E, F>(s: State<E, F>, filter: F)
    ensures
      var t := |s.tasks|;
      Apply(Apply(Apply(s, BeginSubscribe(filter, None)), Advance(t)), Advance(t)).bus == Subscribe(s.bus, filter).0
  {
    var t := |s.tasks|;
    var s1 := Apply(s, BeginSubscribe(filter, None));
    var s2 := Apply(s1, Advance(t));
    assert s2 == Moved(s1, t) && Apply(s2, Advance(t)) == Moved(s2, t);
    if s.bus.closed {
      assert s1.tasks[t].Done? && s2.tasks[t].Done?;
    } else {
      assert s1.tasks[t] == Subscribing(filter, None);
      assert s2.tasks[t] == Drawn(Sub(s.bus.lastId + 1, filter), None);
    }
  }

  /** A registry tracks what it subscribes, and forgets what it unsubscribes. */
  lemma UndisturbedRegister<E, F>(s: State<E, F>, filter: F, r: nat)
    requires r < |s.tracked| && !s.bus.closed
    ensures
      var t := |s.tasks|;
      var s' := Apply(Apply(Apply(Apply(s, BeginSubscribe(filter, Some(r))), Advance(t)), Advance(t)), Advance(t));
      && s'.bus == Subscribe(s.bus, filter).0
      && s'.tracked == s.tracked[r := s.tracked[r] + [Subscribe(s.bus, filter).1]]
      && s'.tasks == s.tasks + [Done]
  {
    var t, id := |s.tasks|, s.bus.lastId + 1;
    var s1 := Apply(s, BeginSubscribe(filter, Some(r)));
    assert s1.tasks == s.tasks + [Subscribing(filter, Some(r))];
    var s2 := Apply(s1, Advance(t));
    assert s2.tasks == s.tasks + [Drawn(Sub(id, filter), Some(r))];
    var s3 := Apply(s2, Advance(t));
    assert s3.tasks == s.tasks + [Tracking(id, r)];
  }

  lemma UndisturbedRegistryUnsubscribe<E, F>(s: State<E, F>, r: nat, id: nat)
    requires r < |s.tracked|
    ensures
      var s' := Apply(Apply(s, RegistryUnsubscribe(r, id)), Advance(|s.tasks|));
      && s'.bus == Unsubscribe(s.bus, id)
      && s'.tracked == s.tracked[r := Forget(s.tracked[r], id)]
      && s'.tasks == s.tasks + [Done]
  {
    var s1 := Apply(s, RegistryUnsubscribe(r, id));
    assert s1.tasks == s.tasks + [Removing(r, id)];
  }

  lemma UndisturbedClose<E, F>(s: State<E, F>)
    ensures s.bus.closed ==> Apply(s, BeginClose) == s
    ensures Apply(Apply(Apply(s, BeginClose), Advance(|s.tasks|)), Advance(|s.tasks|)).bus == Close(s.bus)
  {
    var s1 := Apply(s, BeginClose);
    assert s1.tasks == if s.bus.closed then s.tasks else s.tasks + [Closing];
  }

  // ----------------------------------------------------------------------------- registries

  /** No task still has to put the id into the list. */
  ghost predicate NotDrawn<E, F>(s: State<E, F>, id: nat) {
    forall t | 0 <= t < |s.tasks| && s.tasks[t].Drawn? :: s.tasks[t].sub.id != id
  }

  /** The registry drew the id and it is or was in the list; zero, which a closed bus gives,
      belongs to everybody. */
  ghost predicate OwnedBy<E, F>(s: State<E, F>, id: nat, r: nat) {
    id == 0 || (id < |s.owners| && s.owners[id] == Some(r) && NotDrawn(s, id))
  }

  ghost predicate AllOwnedBy<E, F>(s: State<E, F>, ids: seq<nat>, r: nat) {
    forall i | 0 <= i < |ids| :: OwnedBy(s, ids[i], r)
  }

  predicate ValidOwner<E, F>(s: State<E, F>, owner: Option<nat>) {
    owner.Some? ==> owner.value < |s.tracked|
  }

  ghost predicate TaskOwned<E, F>(s: State<E, F>, task: Task<E, F>) {
    match task
    case Subscribing(_, owner) => ValidOwner(s, owner)
    case Drawn(sub, owner) => ValidOwner(s, owner) && sub.id < |s.owners| && s.owners[sub.id] == owner
    case Tracking(id, r) => r < |s.tracked| && OwnedBy(s, id, r)
    case Dropping(r, ids) => AllOwnedBy(s, ids, r)
    case _ => true
  }

  /** Registries track, and are about to track or drop, only ids they drew. */
  ghost predicate Owned<E, F>(s: State<E, F>) {
    && |s.owners| == s.bus.lastId + 1
    && (forall r | 0 <= r < |s.tracked| :: AllOwnedBy(s, s.tracked[r], r))
    && (forall t | 0 <= t < |s.tasks| :: TaskOwned(s, s.tasks[t]))
  }

  /** Ids keep their owners, and a task that is new with an id has a new id. */
  ghost predicate OwnersKept<E, F>(s: State<E, F>, s': State<E, F>) {
    && |s.owners| <= |s'.owners| && s'.owners[..|s.owners|] == s.owners
    && |s.tracked| <= |s'.tracked|
    && (forall t | 0 <= t < |s'.tasks| && s'.tasks[t].Drawn? ::
          s'.tasks[t].sub.id >= |s.owners| || (t < |s.tasks| && s'.tasks[t] == s.tasks[t]))
  }

  lemma OwnedByKept<E, F>(s: State<E, F>, s': State<E, F>, id: nat, r: nat)
    requires OwnersKept(s, s') && OwnedBy(s, id, r)
    ensures OwnedBy(s', id, r)
  {
    if id != 0 {
      assert s'.owners[..|s.owners|][id] == s.owners[id];
    }
  }

  lemma TaskOwnedKept<E, F>(s: State<E, F>, s': State<E, F>, task: Task<E, F>)
    requires OwnersKept(s, s') && TaskOwned(s, task)
    ensures TaskOwned(s', task)
  {
    match task
    case Drawn(sub, owner) => assert s'.owners[..|s.owners|][sub.id] == s.owners[sub.id];
    case Tracking(id, r) => OwnedByKept(s, s', id, r);
    case Dropping(r, ids) =>
      forall i | 0 <= i < |ids| ensures OwnedBy(s', ids[i], r) {
        OwnedByKept(s, s', ids[i], r);
      }
    case _ =>
  }

  /** A step that changes one task and one registry's list keeps the rest owned. */
  lemma OwnedFrame<E, F>(s: State<E, F>, s': State<E, F>, t: nat, r: nat)
    requires Owned(s) && OwnersKept(s, s') && |s'.owners| == s'.bus.lastId + 1
    requires |s'.tracked| <= |s.tracked| || (r == |s.tracked| && |s'.tracked| == |s.tracked| + 1)
    requires forall q | 0 <= q < |s.tracked| && q < |s'.tracked| && q != r :: s'.tracked[q] == s.tracked[q]
    requires r < |s'.tracked| ==> AllOwnedBy(s', s'.tracked[r], r)
    requires |s'.tasks| <= |s.tasks| || (t == |s.tasks| && |s'.tasks| == |s.tasks| + 1)
    requires forall u | 0 <= u < |s.tasks| && u < |s'.tasks| && u != t :: s'.tasks[u] == s.tasks[u]
    requires t < |s'.tasks| ==> TaskOwned(s', s'.tasks[t])
    ensures Owned(s')
  {
    forall q | 0 <= q < |s'.tracked| ensures AllOwnedBy(s', s'.tracked[q], q) {
      if q != r {
        forall i | 0 <= i < |s.tracked[q]| ensures OwnedBy(s', s.tracked[q][i], q) {
          OwnedByKept(s, s', s.tracked[q][i], q);
        }
      }
    }
    forall u | 0 <= u < |s'.tasks| ensures TaskOwned(s', s'.tasks[u]) {
      if u != t {
        assert TaskOwned(s, s.tasks[u]);
        TaskOwnedKept(s, s', s.tasks[u]);
      }
    }
  }

  lemma ListKept<E, F>(s: State<E, F>, s': State<E, F>, ids: seq<nat>, r: nat)
    requires OwnersKept(s, s') && AllOwnedBy(s, ids, r)
    ensures AllOwnedBy(s', ids, r)
  {
    forall i | 0 <= i < |ids| ensures OwnedBy(s', ids[i], r) {
      OwnedByKept(s, s', ids[i], r);
    }
  }

  lemma OwnedMove<E, F>(s: State<E, F>, t: nat)
    requires Owned(s) && Numbered(s) && t < |s.tasks|
    ensures Owned(Moved(s, t))
  {
    var s', task := Moved(s, t), s.tasks[t];
    assert TaskOwned(s, task);
    match task
    case Drawn(_, _) => OwnedAppend(s, t);
    case Tracking(_, _) => OwnedTrack(s, t);
    case Dropping(r, ids) =>
      ListKept(s, s', ids, r);
      OwnedFrame(s, s', t, |s'.tracked|);
    case _ => OwnedFrame(s, s', t, |s'.tracked|);
  }

  lemma OwnedAppend<E, F>(s: State<E, F>, t: nat)
    requires Owned(s) && Numbered(s) && t < |s.tasks| && s.tasks[t].Drawn?
    ensures Owned(Moved(s, t))
  {
    var s', sub := Moved(s, t), s.tasks[t].sub;
    assert TaskOwned(s, s.tasks[t]);
    assert DrawnOk(s, sub.id);
    assert s'.tasks[t] == AfterAppend(sub.id, s.tasks[t].owner);
    assert NotDrawn(s', sub.id);
    OwnedFrame(s, s', t, |s'.tracked|);
  }

  lemma OwnedTrack<E, F>(s: State<E, F>, t: nat)
    requires Owned(s) && t < |s.tasks| && s.tasks[t].Tracking?
    ensures Owned(Moved(s, t))
  {
    var s', id, r := Moved(s, t), s.tasks[t].id, s.tasks[t].registry;
    assert TaskOwned(s, s.tasks[t]);
    ListKept(s, s', s.tracked[r], r);
    OwnedByKept(s, s', id, r);
    OwnedFrame(s, s', t, r);
  }

  lemma ForgetShrinks(ids: seq<nat>, id: nat)
    ensures forall i | 0 <= i < |Forget(ids, id)| :: Forget(ids, id)[i] in ids
  {
  }

  lemma OwnedBegin<E, F>(s: State<E, F>, step: Step<E, F>)
    requires Owned(s) && !step.Advance?
    ensures Owned(Apply(s, step))
  {
    var s', t := Apply(s, step), |s.tasks|;
    if step.RegistryUnsubscribe? && step.registry < |s.tracked| {
      ForgetShrinks(s.tracked[step.registry], step.id);
      ListKept(s, s', s.tracked[step.registry], step.registry);
      OwnedFrame(s, s', t, step.registry);
    } else if step.UnsubscribeAll? && step.registry < |s.tracked| {
      ListKept(s, s', s.tracked[step.registry], step.registry);
      OwnedFrame(s, s', t, step.registry);
    } else {
      OwnedFrame(s, s', t, |s.tracked|);
    }
  }

  lemma OwnedStep<E, F>(s: State<E, F>, step: Step<E, F>)
    requires Owned(s) && Numbered(s)
    ensures Owned(Apply(s, step))
  {
    if step.Advance? {
      if step.task < |s.tasks| {
        OwnedMove(s, step.task);
      }
    } else {
      OwnedBegin(s, step);
    }
  }

  // ----------------------------------------------------------------------------- every run

  ghost predicate Consistent<E, F>(s: State<E, F>) {
    HistoryInv(s) && Numbered(s) && Balanced(s) && Owned(s)
  }

  /** Over every interleaving the bus, its history and the registries stay consistent. */
  lemma {:induction false} RunStaysConsistent<E, F>(s: State<E, F>, steps: seq<Step<E, F>>)
    requires Consistent(s)
    ensures Consistent(Run(s, steps))
    decreases |steps|
  {
    if steps != [] {
      HistoryStep(s, steps[0]);
      NumberedStep(s, steps[0]);
      BalancedStep(s, steps[0]);
      OwnedStep(s, steps[0]);
      RunStaysConsistent(Apply(s, steps[0]), steps[1..]);
    }
  }

  lemma InitConsistent<E, F>(historySize: int)
    ensures Consistent(Init<E, F>(historySize)) && InOrder(Init<E, F>(historySize))
  {
  }

  /** In every reachable state, the copy a publish delivers to has each matching handler once and
      no other. */
  lemma EachMatchingHandlerOnce<E, F>(s: State<E, F>, t: nat, matches: (F, E) -> bool, id: nat)
    requires Consistent(s) && t < |s.tasks| && s.tasks[t].Recorded?
    ensures
      var copy := Moved(s, t).tasks[t];
      && copy == Copied(s.tasks[t].e, s.bus.subs)
      && multiset(Matching(copy.subs, copy.e, matches))[id] ==
         if exists x <- s.bus.subs :: x.id == id && matches(x.filter, copy.e) then 1 else 0
  {
    DeliveredOnce(s.bus.subs, s.tasks[t].e, matches, id);
  }

  /** What a step that takes a subscription out of the list can be: an unsubscription of its id,
      Close, or an UnsubscribeAll of the registry that made it. */
  ghost predicate MayRemove<E, F>(s: State<E, F>, step: Step<E, F>, id: nat) {
    || step == UnsubscribeId(id)
    || (step.Advance? && step.task < |s.tasks| && MayTakeOut(s, s.tasks[step.task], id))
  }

  ghost predicate MayTakeOut<E, F>(s: State<E, F>, task: Task<E, F>, id: nat) {
    || task.Closing?
    || (task.Removing? && task.id == id)
    || (task.Dropping? && task.ids != [] && task.ids[0] == id
        && id < |s.owners| && s.owners[id] == Some(task.registry))
  }

  /** In every reachable state nothing else removes a subscription: an UnsubscribeAll, however its
      removals are interleaved, leaves those of other registries and of direct callers alone,
      stale ids notwithstanding. */
  lemma OnlyTheOwnerDrops<E, F>(s: State<E, F>, step: Step<E, F>, x: Sub<F>)
    requires Consistent(s) && x in s.bus.subs && x !in Apply(s, step).bus.subs
    ensures MayRemove(s, step, x.id)
  {
    if step.Advance? {
      if step.task < |s.tasks| {
        SectionTakesOut(s, s.tasks[step.task], x);
      }
    } else if step.UnsubscribeId? {
      RemovalRemovesOne(s.bus.subs, step.id);
    }
  }

  lemma SectionTakesOut<E, F>(s: State<E, F>, task: Task<E, F>, x: Sub<F>)
    requires Numbered(s) && TaskOwned(s, task) && x in s.bus.subs && x !in Section(s, task).bus.subs
    ensures MayTakeOut(s, task, x.id)
  {
    match task
    case Removing(_, id) => RemovalRemovesOne(s.bus.subs, id);
    case Dropping(r, ids) =>
      if ids != [] {
        RemovalRemovesOne(s.bus.subs, ids[0]);
        assert OwnedBy(s, ids[0], r);
      }
    case _ =>
  }

  /** The id is not in the list and will not be. */
  ghost predicate Dead<E, F>(s: State<E, F>, id: nat) {
    id <= s.bus.lastId && NotDrawn(s, id) && forall x <- s.bus.subs :: x.id != id
  }

  lemma DeadStep<E, F>(s: State<E, F>, step: Step<E, F>, id: nat)
    requires Consistent(s) && Dead(s, id)
    ensures Dead(Apply(s, step), id)
  {
    if step.Advance? {
      if step.task < |s.tasks| {
        DeadMove(s, step.task, id);
      }
    } else if step.UnsubscribeId? {
      RemovalRemovesOne(s.bus.subs, step.id);
    } else {
      assert Apply(s, step).bus.subs == s.bus.subs;
    }
  }

  lemma DeadMove<E, F>(s: State<E, F>, t: nat, id: nat)
    requires Consistent(s) && Dead(s, id) && t < |s.tasks|
    ensures Dead(Moved(s, t), id)
  {
    var task := s.tasks[t];
    if task.Drawn? {
      assert task.sub.id != id;
    } else if !task.Subscribing? {
      SectionWithoutIds(s, task);
    }
  }

  /** Each of the ids is dead, or left for the task to remove. */
  ghost predicate DropInv<E, F>(s: State<E, F>, t: nat, ids: seq<nat>) {
    && t < |s.tasks| && (s.tasks[t].Dropping? || s.tasks[t].Done?)
    && forall i | 0 <= i < |ids| :: Dead(s, ids[i]) || (s.tasks[t].Dropping? && ids[i] in s.tasks[t].ids)
  }

  lemma DropStep<E, F>(s: State<E, F>, step: Step<E, F>, t: nat, ids: seq<nat>)
    requires Consistent(s) && DropInv(s, t, ids)
    ensures DropInv(Apply(s, step), t, ids)
  {
    var s', task := Apply(s, step), s.tasks[t];
    if step == Advance(t) {
      assert s' == Moved(s, t);
      if task.Dropping? && task.ids != [] {
        DroppedIsDead(s, t);
      }
    } else {
      assert s'.tasks[t] == task;
    }
    forall i | 0 <= i < |ids| ensures Dead(s', ids[i]) || (s'.tasks[t].Dropping? && ids[i] in s'.tasks[t].ids) {
      if Dead(s, ids[i]) {
        DeadStep(s, step, ids[i]);
      } else if step == Advance(t) && task.ids != [] && ids[i] != task.ids[0] {
        assert ids[i] in task.ids[1..];
      }
    }
  }

  lemma DroppedIsDead<E, F>(s: State<E, F>, t: nat)
    requires Consistent(s) && t < |s.tasks| && s.tasks[t].Dropping? && s.tasks[t].ids != []
    ensures Dead(Moved(s, t), s.tasks[t].ids[0])
  {
    var id := s.tasks[t].ids[0];
    assert TaskOwned(s, s.tasks[t]);
    assert OwnedBy(s, id, s.tasks[t].registry);
    RemovalRemovesOne(s.bus.subs, id);
    if id == 0 {
      ZeroNotDrawn(s);
    }
  }

  lemma ZeroNotDrawn<E, F>(s: State<E, F>)
    requires Numbered(s)
    ensures NotDrawn(s, 0)
  {
    forall t | 0 <= t < |s.tasks| && s.tasks[t].Drawn? ensures s.tasks[t].sub.id != 0 {
      assert DrawnOk(s, s.tasks[t].sub.id);
    }
  }

  lemma {:induction false} DropRuns<E, F>(s: State<E, F>, steps: seq<Step<E, F>>, t: nat, ids: seq<nat>)
    requires Consistent(s) && DropInv(s, t, ids)
    ensures DropInv(Run(s, steps), t, ids)
    decreases |steps|
  {
    if steps != [] {
      DropStep(s, steps[0], t, ids);
      RunStaysConsistent(s, [steps[0]]);
      RunOne(s, steps[0]);
      DropRuns(Apply(s, steps[0]), steps[1..], t, ids);
    }
  }

  /** Once an UnsubscribeAll has finished, whatever came between and whatever comes later, none of
      the ids that its registry tracked is in the list. */
  lemma UnsubscribeAllCompletes<E, F>(s: State<E, F>, r: nat, steps: seq<Step<E, F>>)
    requires Consistent(s) && r < |s.tracked|
    ensures
      var s' := Run(Apply(s, UnsubscribeAll(r)), steps);
      && |s.tasks| < |s'.tasks|
      && (s'.tasks[|s.tasks|].Done? ==>
            forall i, x | 0 <= i < |s.tracked[r]| && x in s'.bus.subs :: x.id != s.tracked[r][i])
  {
    var s1, t, ids := Apply(s, UnsubscribeAll(r)), |s.tasks|, s.tracked[r];
    RunStaysConsistent(s, [UnsubscribeAll(r)]);
    RunOne(s, UnsubscribeAll(r));
    assert s1.tasks[t] == Dropping(r, ids);
    DropRuns(s1, steps, t, ids);
    var s' := Run(s1, steps);
    if s'.tasks[t].Done? {
      forall i | 0 <= i < |ids| ensures forall x <- s'.bus.subs :: x.id != ids[i] {
        assert Dead(s', ids[i]);
      }
    }
  }
}
