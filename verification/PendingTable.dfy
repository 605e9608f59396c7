/**
 The `pending` map as the transports hold it: a map from request ids to channel objects that
 the critical sections update in place.  Each method is proved to do one table operation of
 `PendingCalls`, and to be free of the two channel panics.
 */
module PendingTable {
  import opened Wrappers
  import opened PendingCalls

  /** A channel of capacity one.  Sending on or closing a closed channel panics, so both are
      preconditions here. */
  class ResponseChannel {
    var buffer: Option<Response>
    var closed: bool

    constructor ()
      ensures buffer == None && !closed
    {
      buffer, closed := None, false;
    }

    ghost function Value(): Channel
      reads this
    {
      Channel(buffer, closed)
    }

    /** A send in a `select` with a default branch. */
    method TrySend(r: Response)
      requires !closed
      modifies this
      ensures Value() == Channel(if old(buffer).None? then Some(r) else old(buffer), false)
    {
      if buffer.None? {
        buffer := Some(r);
      }
    }

    method Close()
      requires !closed
      modifies this
      ensures Value() == Channel(old(buffer), true)
    {
      closed := true;
    }
  }

  class RequestTable {
    var pending: map<int64, ResponseChannel>
    ghost var made: seq<ResponseChannel>  // every channel made so far, in order
    ghost var table: Table                // the value this object stands for

    ghost predicate Valid()
      reads this, made
    {
      && Wired(table)
      && !table.fault
      && |made| == |table.chans|
      && (forall i, j | 0 <= i < j < |made| :: made[i] != made[j])
      && (forall i | 0 <= i < |made| :: made[i].Value() == table.chans[i])
      && pending.Keys == table.pending.Keys
      && (forall id <- pending :: pending[id] == made[table.pending[id]])
      && (forall id <- pending :: !pending[id].closed)
      && (forall id, id' | id in pending && id' in pending && id != id' :: pending[id] != pending[id'])
    }

    constructor ()
      ensures Valid() && table == Table([], map[], false) && made == []
    {
      pending, made, table := map[], [], Table([], map[], false);
    }

    method MakeChannel() returns (ch: ResponseChannel)
      requires Valid()
      modifies this
      ensures Valid() && fresh(ch)
      ensures made == old(made) + [ch]
      ensures table == old(table).(chans := old(table).chans + [FRESH_CHANNEL])
    {
      ch := new ResponseChannel();
      made := made + [ch];
      table := table.(chans := table.chans + [FRESH_CHANNEL]);
    }

    /** The critical section that files a caller's channel. */
    method Register(key: int64, ch: ResponseChannel, ghost k: nat)
      requires Valid()
      requires k < |made| && made[k] == ch && !ch.closed
      requires ch !in pending.Values
      modifies this
      ensures Valid() && made == old(made) && table == Put(old(table), key, k)
    {
      pending := pending[key := ch];
      table := Put(table, key, k);
    }

    /** The response handler's critical section. */
    method HandleResponse(r: Response)
      requires Valid()
      modifies this, made
      ensures Valid() && made == old(made) && table == Offer(old(table), r)
    {
      if r.id == 0 {
        return;
      }
      if r.id in pending {
        ghost var k := table.pending[r.id];
        pending[r.id].TrySend(r);
        table := Offer(table, r);
        assert forall i | 0 <= i < |made| && i != k :: made[i].Value() == table.chans[i];
      }
    }

    /** One iteration of the cancelling loop: close the channel, delete the entry. */
    method CloseEntry(id: int64)
      requires Valid() && id in pending
      modifies this, pending[id]
      ensures Valid() && made == old(made)
      ensures table == EntryClosed(old(table), id)
      ensures pending == old(pending) - {id}
    {
      ghost var k := table.pending[id];
      pending[id].Close();
      pending := pending - {id};
      table := EntryClosed(table, id);
      assert forall i | 0 <= i < |made| && i != k :: made[i] != made[k];
    }

    /** The connection-lost handler's and Close's critical section: the map is emptied in any
        order, and every channel is closed as its entry is deleted. */
    method CancelAll()
      requires Valid()
      modifies this, made
      ensures Valid() && made == old(made) && table == Sweep(old(table))
    {
      while pending != map[]
        invariant Valid() && made == old(made)
        invariant Sweep(table) == Sweep(old(table))
        decreases |pending|
      {
        var id :| id in pending;
        NoDoubleClose();
        SweepAfterClose(table, id);
        FewerKeys(pending, id);
        assert pending[id] in made;
        CloseEntry(id);
      }
      SweepOfEmpty(table);
    }

    lemma NoDoubleClose()
      requires Valid()
      ensures !ClosesTwice(table)
    {
    }

    static lemma FewerKeys(m: map<int64, ResponseChannel>, id: int64)
      requires id in m
      ensures |m - {id}| < |m|
    {
      assert m.Keys == (m - {id}).Keys + {id};
    }

    static lemma SweepOfEmpty(t: Table)
      requires t.pending == map[]
      ensures Sweep(t) == t
    {
      assert Sweep(t).chans == t.chans;
    }

    static ghost function EntryClosed(t: Table, id: int64): Table
      requires Wired(t) && id in t.pending
    {
      var k := t.pending[id];
      Table(t.chans[k := t.chans[k].(closed := true)], t.pending - {id}, t.fault)
    }

    /** Sweeping after one entry was closed ends where sweeping at once does. */
    static lemma SweepAfterClose(t: Table, id: int64)
      requires Wired(t) && id in t.pending && !ClosesTwice(t)
      ensures Sweep(EntryClosed(t, id)) == Sweep(t)
    {
      var t' := EntryClosed(t, id);
      var k := t.pending[id];
      forall i | 0 <= i < |t.chans| ensures Sweep(t').chans[i] == Sweep(t).chans[i] {
        if i in t.pending.Values && i != k {
          var x :| x in t.pending && t.pending[x] == i;
          assert x in t'.pending;
        }
      }
      assert Sweep(t').chans == Sweep(t).chans;
    }

    /** A caller's deferred deletion. */
    method Finish(key: int64)
      requires Valid()
      modifies this
      ensures Valid() && made == old(made) && table == Drop(old(table), key)
    {
      pending := pending - {key};
      table := Drop(table, key);
    }
  }
}
