/**
 The bus and the registries as objects updated in place.  Each critical section is a method
 proved against `EventBus`; each operation takes its sections one after the other, as when no
 other goroutine comes between.
 */
module EventBusObjects {
  import opened EventBus

  /** The first place of an id, scanning from the front. */
  method Locate(ids: seq<nat>, id: nat) returns (i: nat)
    ensures i == Position(ids, id)
  {
    i := 0;
    while i < |ids| && ids[i] != id
      invariant i <= |ids|
      invariant forall j: nat | j < i :: ids[j] != id
    {
      i := i + 1;
    }
  }

  /** Go through a copy of the list and call each handler whose filter lets the event through. */
  method Deliver<E, F>(subs: seq<Sub<F>>, e: E, matches: (F, E) -> bool) returns (called: seq<nat>)
    ensures called == Matching(subs, e, matches)
  {
    called := [];
    for i := 0 to |subs|
      invariant called == Matching(subs[..i], e, matches)
    {
      assert subs[..i + 1][..i] == subs[..i];
      if matches(subs[i].filter, e) {
        called := called + [subs[i].id];
      }
    }
    assert subs[..|subs|] == subs;
  }

  class Dispatcher<E, F> {
    var subs: seq<Sub<F>>
    var history: seq<E>
    var nextId: nat
    const historySize: int
    var closed: bool

    ghost function Contents(): Bus<E, F>
      reads this
    {
      Bus(subs, history, nextId, historySize, closed)
    }

    constructor (historySize: int)
      ensures Contents() == NewBus(historySize)
    {
      subs, history, nextId, closed := [], [], 0, false;
      this.historySize := historySize;
    }

    // the critical sections

    method DrawId() returns (id: nat)
      modifies this`nextId
      ensures Contents() == Draw(old(Contents())) && id == nextId
    {
      nextId := nextId + 1;
      id := nextId;
    }

    method AppendSub(sub: Sub<F>)
      modifies this`subs
      ensures Contents() == Append(old(Contents()), sub)
    {
      subs := subs + [sub];
    }

    method RecordEvent(e: E)
      modifies this`history
      ensures Contents() == Record(old(Contents()), e)
    {
      if historySize > 0 {
        if |history| >= historySize {
          history := history[1..];
        }
        history := history + [e];
      }
    }

    /** The closed flag is swapped at once: only one caller finds it down. */
    method SwapClosed() returns (was: bool)
      modifies this`closed
      ensures was == old(closed) && Contents() == old(Contents()).(closed := true)
    {
      was := closed;
      closed := true;
    }

    method DropList()
      modifies this`subs
      ensures Contents() == ClearList(old(Contents()))
    {
      subs := [];
    }

    method DropEvents()
      modifies this`history
      ensures Contents() == DropHistory(old(Contents()))
    {
      history := [];
    }

    method Remove(id: nat) returns (found: bool)
      modifies this`subs
      ensures Contents() == Unsubscribe(old(Contents()), id)
      ensures found <==> exists i | 0 <= i < |old(subs)| :: old(subs)[i].id == id
    {
      var i := Locate(Ids(subs), id);
      found := i < |subs|;
      if found {
        subs := subs[i := subs[|subs| - 1]];
        subs := subs[..|subs| - 1];
      }
    }

    method Clear()
      modifies this`history
      ensures Contents() == ClearHistory(old(Contents()))
    {
      if historySize != 0 {
        history := [];
      }
    }

    // the operations

    method SubscribeFiltered(filter: F) returns (id: nat)
      modifies this
      ensures (Contents(), id) == Subscribe(old(Contents()), filter)
    {
      if closed {
        return 0;
      }
      id := DrawId();
      AppendSub(Sub(id, filter));
    }

    method PublishEvent(e: E, matches: (F, E) -> bool) returns (called: seq<nat>)
      modifies this
      ensures Contents() == Publish(old(Contents()), e)
      ensures called == Delivered(old(Contents()), e, matches)
    {
      if closed {
        return [];
      }
      RecordEvent(e);
      called := Deliver(subs, e, matches);
    }

    method Shut()
      modifies this
      ensures Contents() == Close(old(Contents()))
    {
      var was := SwapClosed();
      if !was {
        DropList();
        DropEvents();
      }
    }
  }

  class HandlerRegistry<E, F> {
    const bus: Dispatcher<E, F>
    var tracked: seq<nat>

    constructor (bus: Dispatcher<E, F>)
      ensures this.bus == bus && tracked == []
    {
      this.bus := bus;
      tracked := [];
    }

    method On(filter: F) returns (id: nat)
      modifies this, bus
      ensures (bus.Contents(), id) == Subscribe(old(bus.Contents()), filter)
      ensures tracked == old(tracked) + [id]
    {
      id := bus.SubscribeFiltered(filter);
      tracked := tracked + [id];
    }

    method ForgetId(id: nat)
      modifies this
      ensures tracked == Forget(old(tracked), id)
    {
      var i := Locate(tracked, id);
      if i < |tracked| {
        tracked := tracked[i := tracked[|tracked| - 1]];
        tracked := tracked[..|tracked| - 1];
      }
    }

    method Drop(id: nat) returns (found: bool)
      modifies this, bus
      ensures bus.Contents() == Unsubscribe(old(bus.Contents()), id)
      ensures tracked == Forget(old(tracked), id)
      ensures found <==> exists i | 0 <= i < |old(bus.subs)| :: old(bus.subs)[i].id == id
    {
      ForgetId(id);
      found := bus.Remove(id);
    }

    method DropAll()
      modifies this, bus
      ensures bus.Contents() == UnsubscribeEach(old(bus.Contents()), old(tracked))
      ensures DistinctIds(old(bus.subs)) ==> WithoutAll(old(bus.subs), bus.subs, old(tracked))
      ensures bus.history == old(bus.history) && bus.nextId == old(bus.nextId) && bus.closed == old(bus.closed)
      ensures tracked == []
    {
      var ids := tracked;
      tracked := [];
      for i := 0 to |ids|
        invariant tracked == []
        invariant bus.Contents() == UnsubscribeEach(old(bus.Contents()), ids[..i])
        invariant bus.history == old(bus.history) && bus.nextId == old(bus.nextId) && bus.closed == old(bus.closed)
      {
        assert ids[..i + 1][..i] == ids[..i];
        var found := bus.Remove(ids[i]);
      }
      assert ids[..|ids|] == ids;
      if DistinctIds(old(bus.subs)) {
        UnsubscribeEachRemoves(old(bus.Contents()), ids);
      }
    }
  }
}
