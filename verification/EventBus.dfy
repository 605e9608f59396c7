/**
 The event bus as a value: what each critical section does to its fields, and the operations
 as sequences of sections.  `EventBusRuns` interleaves the sections of many operations, and
 `EventBusObjects` holds the classes.
 */
module EventBus {

  /** A subscription; filters are values that events are matched against. */
  datatype Sub<F> = Sub(id: nat, filter: F)

  datatype Bus<E, F> = Bus(subs: seq<Sub<F>>, history: seq<E>, lastId: nat, historySize: int, closed: bool)

  function NewBus<E, F>(historySize: int): Bus<E, F> {
    Bus([], [], 0, historySize, false)
  }

  /** The first position of an id, or the length. */
  function Position(ids: seq<nat>, id: nat): (i: nat)
    ensures i <= |ids|
    ensures i < |ids| ==> ids[i] == id
    ensures forall j: nat | j < i :: ids[j] != id
  {
    if ids == [] || ids[0] == id then 0 else 1 + Position(ids[1..], id)
  }

  function Ids<F>(subs: seq<Sub<F>>): (ids: seq<nat>)
    ensures |ids| == |subs|
    ensures forall i | 0 <= i < |subs| :: ids[i] == subs[i].id
  {
    seq(|subs|, i requires 0 <= i < |subs| => subs[i].id)
  }

  /** Overwrite position i with the last element and drop the last position. */
  function SwapRemove<T>(s: seq<T>, i: nat): (r: seq<T>)
    requires i < |s|
    ensures |r| == |s| - 1
    ensures forall k | 0 <= k < |r| :: r[k] == s[if k == i then |s| - 1 else k]
  {
    s[i := s[|s| - 1]][..|s| - 1]
  }

  function Forget(ids: seq<nat>, id: nat): seq<nat> {
    var i := Position(ids, id);
    if i == |ids| then ids else SwapRemove(ids, i)
  }

  /** The list without the subscription of an id, the last one moved into its place. */
  function Removal<F>(subs: seq<Sub<F>>, id: nat): seq<Sub<F>> {
    var i := Position(Ids(subs), id);
    if i == |subs| then subs else SwapRemove(subs, i)
  }

  // -------------------------------------------------------------------------- the sections

  function Draw<E, F>(b: Bus<E, F>): Bus<E, F> {
    b.(lastId := b.lastId + 1)
  }

  function Append<E, F>(b: Bus<E, F>, sub: Sub<F>): Bus<E, F> {
    b.(subs := b.subs + [sub])
  }

  function Unsubscribe<E, F>(b: Bus<E, F>, id: nat): Bus<E, F> {
    b.(subs := Removal(b.subs, id))
  }

  /** Drop the oldest event when the history is full, and add one. */
  function Record<E, F>(b: Bus<E, F>, e: E): Bus<E, F> {
    if b.historySize <= 0 then b
    else if |b.history| >= b.historySize then b.(history := b.history[1..] + [e])
    else b.(history := b.history + [e])
  }

  function ClearHistory<E, F>(b: Bus<E, F>): Bus<E, F> {
    if b.historySize == 0 then b else b.(history := [])
  }

  function ClearList<E, F>(b: Bus<E, F>): Bus<E, F> {
    b.(subs := [])
  }

  function DropHistory<E, F>(b: Bus<E, F>): Bus<E, F> {
    b.(history := [])
  }

  // ------------------------------------------------------------ the operations, undisturbed

  /** Subscribing yields the next id, or zero on a closed bus. */
  function Subscribe<E, F>(b: Bus<E, F>, filter: F): (Bus<E, F>, nat) {
    if b.closed then (b, 0) else (Append(Draw(b), Sub(b.lastId + 1, filter)), b.lastId + 1)
  }

  function Publish<E, F>(b: Bus<E, F>, e: E): Bus<E, F> {
    if b.closed then b else Record(b, e)
  }

  function Close<E, F>(b: Bus<E, F>): Bus<E, F> {
    if b.closed then b else DropHistory(ClearList(b.(closed := true)))
  }

  /** The subscriptions an event is delivered to, in order. */
  function Delivered<E, F>(b: Bus<E, F>, e: E, matches: (F, E) -> bool): seq<nat> {
    if b.closed then [] else Matching(b.subs, e, matches)
  }

  function Matching<E, F>(subs: seq<Sub<F>>, e: E, matches: (F, E) -> bool): seq<nat> {
    if subs == [] then []
    else
      var n := |subs| - 1;
      Matching(subs[..n], e, matches) + if matches(subs[n].filter, e) then [subs[n].id] else []
  }

  /** Drop the subscriptions of several ids, the first id first. */
  function UnsubscribeEach<E, F>(b: Bus<E, F>, ids: seq<nat>): Bus<E, F> {
    if ids == [] then b else Unsubscribe(UnsubscribeEach(b, ids[..|ids| - 1]), ids[|ids| - 1])
  }

  // ----------------------------------------------------------------- what a removal removes

  ghost predicate DistinctIds<F>(subs: seq<Sub<F>>) {
    forall i, j | 0 <= i < j < |subs| :: subs[i].id != subs[j].id
  }

  /** `after` are the subscriptions of `before` but for those of one id. */
  ghost predicate Without<F>(before: seq<Sub<F>>, after: seq<Sub<F>>, id: nat) {
    && (forall s <- after :: s in before)
    && (forall s <- before :: s in after <==> s.id != id)
  }

  /** A removal takes away exactly the subscription with the id and keeps each other one once. */
  lemma RemovalRemovesOne<F>(subs: seq<Sub<F>>, id: nat)
    requires DistinctIds(subs)
    ensures DistinctIds(Removal(subs, id)) && Without(subs, Removal(subs, id), id)
    ensures |Removal(subs, id)| == |subs| - if id in Ids(subs) then 1 else 0
  {
    var i, after := Position(Ids(subs), id), Removal(subs, id);
    forall s | s in subs ensures s in after <==> s.id != id {
      var k :| 0 <= k < |subs| && subs[k] == s;
      if i < |subs| && k != i {
        assert after[if k == |subs| - 1 then i else k] == s;
      }
    }
    assert forall s <- after :: s in subs;
  }

  /** `after` are the subscriptions of `before` but for those of some ids. */
  ghost predicate WithoutAll<F>(before: seq<Sub<F>>, after: seq<Sub<F>>, ids: seq<nat>) {
    && (forall s <- after :: s in before)
    && (forall s <- before :: s in after <==> s.id !in ids)
  }

  /** Unsubscribing each of some ids takes away exactly the subscriptions with these ids, and
      changes nothing but the list. */
  lemma {:induction false} UnsubscribeEachRemoves<E, F>(b: Bus<E, F>, ids: seq<nat>)
    requires DistinctIds(b.subs)
    ensures
      var after := UnsubscribeEach(b, ids).subs;
      DistinctIds(after) && WithoutAll(b.subs, after, ids) && UnsubscribeEach(b, ids) == b.(subs := after)
  {
    if ids != [] {
      var n := |ids| - 1;
      UnsubscribeEachRemoves(b, ids[..n]);
      RemovalRemovesOne(UnsubscribeEach(b, ids[..n]).subs, ids[n]);
      WithoutOneMore(b.subs, UnsubscribeEach(b, ids[..n]).subs, UnsubscribeEach(b, ids).subs, ids[..n], ids[n]);
      assert ids == ids[..n] + [ids[n]];
    }
  }

  lemma WithoutOneMore<F>(a: seq<Sub<F>>, b: seq<Sub<F>>, c: seq<Sub<F>>, ids: seq<nat>, id: nat)
    requires WithoutAll(a, b, ids) && Without(b, c, id)
    ensures WithoutAll(a, c, ids + [id])
  {
  }

  lemma SwapRemoveKeepsRest<T>(s: seq<T>, i: nat)
    requires i < |s|
    ensures multiset(SwapRemove(s, i)) == multiset(s) - multiset{s[i]}
  {
    var init, last := s[..|s| - 1], s[|s| - 1];
    assert s == init + [last];
    if i < |init| {
      assert SwapRemove(s, i) == init[i := last];
      TradeLast(multiset(init), init[i], last);
    } else {
      assert SwapRemove(s, i) == init;
    }
  }

  lemma TradeLast<T>(m: multiset<T>, x: T, last: T)
    requires x in m
    ensures m - multiset{x} + multiset{last} == m + multiset{last} - multiset{x}
  {
  }

  /** Forgetting an id takes it away once and keeps the others. */
  lemma ForgetRemovesOne(ids: seq<nat>, id: nat)
    ensures multiset(Forget(ids, id)) == multiset(ids) - multiset{id}
  {
    var i := Position(ids, id);
    if i < |ids| {
      SwapRemoveKeepsRest(ids, i);
    } else {
      assert id !in ids;
    }
  }

  /** The same removal with the order kept, as the documentation of delivery needs it. */
  function OrderedRemoval<F>(subs: seq<Sub<F>>, id: nat): seq<Sub<F>> {
    var i := Position(Ids(subs), id);
    if i == |subs| then subs else subs[..i] + subs[i + 1..]
  }

  lemma OrderedRemovalRemovesOne<F>(subs: seq<Sub<F>>, id: nat)
    requires DistinctIds(subs)
    ensures DistinctIds(OrderedRemoval(subs, id)) && Without(subs, OrderedRemoval(subs, id), id)
  {
    var i, after := Position(Ids(subs), id), OrderedRemoval(subs, id);
    assert i < |subs| ==> forall k | 0 <= k < |after| :: after[k] == subs[if k < i then k else k + 1];
    forall s | s in subs ensures s in after <==> s.id != id {
      var k :| 0 <= k < |subs| && subs[k] == s;
      if i < |subs| && k != i {
        assert after[if k < i then k else k - 1] == s;
      }
    }
    assert forall s <- after :: s in subs;
  }

  /** The id is not in the list, or one of the last two. */
  predicate NearEnd<F>(subs: seq<Sub<F>>, id: nat) {
    Position(Ids(subs), id) + 2 >= |subs|
  }

  /** The swap keeps the order if and only if it removes one of the last two. */
  lemma OrderKeptIffNearEnd<F>(subs: seq<Sub<F>>, id: nat)
    requires DistinctIds(subs)
    ensures Removal(subs, id) == OrderedRemoval(subs, id) <==> NearEnd(subs, id)
  {
    var i, n := Position(Ids(subs), id), |subs|;
    if i < n {
      var swapped, kept := Removal(subs, id), OrderedRemoval(subs, id);
      assert forall k | 0 <= k < |kept| :: kept[k] == subs[if k < i then k else k + 1];
      if i + 2 < n {
        assert swapped[i] == subs[n - 1] && kept[i] == subs[i + 1];
      } else {
        assert swapped == kept;
      }
    }
  }

  // ---------------------------------------------------------------------------- deliveries

  lemma {:induction false} PositionAppend(ids: seq<nat>, more: seq<nat>, id: nat)
    ensures Position(ids + more, id) == if id in ids then Position(ids, id) else |ids| + Position(more, id)
  {
    if ids == [] {
      assert ids + more == more;
    } else {
      assert (ids + more)[1..] == ids[1..] + more;
      PositionAppend(ids[1..], more, id);
    }
  }

  /** An event is delivered to each matching subscription exactly once and to no other. */
  lemma {:induction false} DeliveredOnce<E, F>(subs: seq<Sub<F>>, e: E, matches: (F, E) -> bool, id: nat)
    requires DistinctIds(subs)
    ensures multiset(Matching(subs, e, matches))[id] ==
            if exists s <- subs :: s.id == id && matches(s.filter, e) then 1 else 0
  {
    if subs != [] {
      var n := |subs| - 1;
      DeliveredOnce(subs[..n], e, matches, id);
      assert subs == subs[..n] + [subs[n]];
      assert forall s <- subs[..n] :: s.id != subs[n].id;
    }
  }

  /** Publishing on an open bus calls each matching handler exactly once and no other; on a closed
      bus it calls none. */
  lemma PublishCallsMatching<E, F>(b: Bus<E, F>, e: E, matches: (F, E) -> bool, id: nat)
    requires DistinctIds(b.subs)
    ensures multiset(Delivered(b, e, matches))[id] ==
            if !b.closed && exists s <- b.subs :: s.id == id && matches(s.filter, e) then 1 else 0
  {
    DeliveredOnce(b.subs, e, matches, id);
  }

  /** The id returned is the one the new subscription has: the next one, or zero when closed. */
  lemma SubscribeReturnsItsId<E, F>(b: Bus<E, F>, filter: F)
    ensures
      var (b', id) := Subscribe(b, filter);
      && (b.closed <==> id == 0)
      && (b.closed ==> b' == b)
      && (!b.closed ==> b'.subs == b.subs + [Sub(id, filter)] && b.lastId < id == b'.lastId)
  {
  }

  /** x stands before y. */
  predicate Before(ids: seq<nat>, x: nat, y: nat) {
    Position(ids, x) < Position(ids, y) < |ids|
  }

  lemma BeforeAppend(ids: seq<nat>, more: seq<nat>, x: nat, y: nat)
    requires Before(ids, x, y) || (x in ids && y !in ids && more == [y])
    ensures Before(ids + more, x, y)
  {
    PositionAppend(ids, more, x);
    PositionAppend(ids, more, y);
  }

  /** And in the order of the list. */
  lemma {:induction false} DeliveredInListOrder<E, F>(
    subs: seq<Sub<F>>, e: E, matches: (F, E) -> bool, i: nat, j: nat)
    requires DistinctIds(subs) && i < j < |subs|
    requires matches(subs[i].filter, e) && matches(subs[j].filter, e)
    ensures Before(Matching(subs, e, matches), subs[i].id, subs[j].id)
  {
    var n := |subs| - 1;
    var init := Matching(subs[..n], e, matches);
    if j < n {
      DeliveredInListOrder(subs[..n], e, matches, i, j);
    } else {
      MatchingMember(subs[..n], e, matches, i);
      NotMatching(subs[..n], e, matches, subs[n].id);
    }
    BeforeAppend(init, if matches(subs[n].filter, e) then [subs[n].id] else [], subs[i].id, subs[j].id);
  }

  lemma {:induction false} NotMatching<E, F>(subs: seq<Sub<F>>, e: E, matches: (F, E) -> bool, id: nat)
    requires forall i | 0 <= i < |subs| :: subs[i].id != id
    ensures id !in Matching(subs, e, matches)
  {
    if subs != [] {
      NotMatching(subs[..|subs| - 1], e, matches, id);
    }
  }

  lemma {:induction false} MatchingMember<E, F>(subs: seq<Sub<F>>, e: E, matches: (F, E) -> bool, i: nat)
    requires i < |subs| && matches(subs[i].filter, e)
    ensures subs[i].id in Matching(subs, e, matches)
  {
    if i < |subs| - 1 {
      MatchingMember(subs[..|subs| - 1], e, matches, i);
    }
  }

  /** A filter that lets everything through is delivered the whole list. */
  lemma {:induction false} MatchAll<E, F>(subs: seq<Sub<F>>, e: E)
    ensures Matching(subs, e, (_, _) => true) == Ids(subs)
  {
    if subs != [] {
      var n := |subs| - 1;
      MatchAll(subs[..n], e);
      assert Ids(subs) == Ids(subs[..n]) + [subs[n].id];
    }
  }

  // ------------------------------------------------------------------------------- history

  function LastN<T>(s: seq<T>, n: int): seq<T> {
    if n <= 0 then [] else if |s| <= n then s else s[|s| - n..]
  }

  /** Recording keeps the last n events. */
  lemma RecordKeepsSuffix<E, F>(b: Bus<E, F>, recorded: seq<E>, e: E)
    requires b.history == LastN(recorded, b.historySize)
    ensures Record(b, e).history == LastN(recorded + [e], b.historySize)
  {
  }
}
