/**
 The account manager: user accounts with their device lists, and a device index that must
 agree with the lists.  `Book` is the manager's state as a value; `AccountStore` holds the
 class that updates the two maps in place.
 */
module Accounts {
  import opened Wrappers

  datatype Device = Device(
    id: string, deviceType: string, code: string, name: string,
    accessGroups: string, host: string, online: bool)

  datatype Account = Account(userId: string, devices: seq<Device>)

  datatype Book = Book(accounts: map<string, Account>, index: map<string, string>)

  const EMPTY_BOOK := Book(map[], map[])

  function Ids(devices: seq<Device>): (ids: set<string>)
    ensures forall d <- devices :: d.id in ids
  {
    set d <- devices :: d.id
  }

  predicate Lists(a: Account, id: string) {
    exists d <- a.devices :: d.id == id
  }

  // ------------------------------------------------------------- operations on the value

  /** The index after pointing every listed device at its user. */
  function Pointed(index: map<string, string>, a: Account): map<string, string> {
    index + map id | id in Ids(a.devices) :: a.userId
  }

  function AddAccount(b: Book, a: Account): Book {
    var pointed := Pointed(b.index, a);
    Book(b.accounts[a.userId := a],
         if a.userId in b.accounts then pointed - (Ids(b.accounts[a.userId].devices) - Ids(a.devices)) else pointed)
  }

  function RemoveAccount(b: Book, userId: string): Book {
    if userId !in b.accounts then b
    else Book(b.accounts - {userId}, b.index - Ids(b.accounts[userId].devices))
  }

  /** The first position of a device in a list, or the length of the list. */
  function Position(devices: seq<Device>, id: string): (i: nat)
    ensures i <= |devices|
    ensures i < |devices| ==> devices[i].id == id
    ensures forall j: nat | j < i :: devices[j].id != id
  {
    if devices == [] || devices[0].id == id then 0 else 1 + Position(devices[1..], id)
  }

  /** The list with the device replaced where it is, or appended. */
  function Granted(devices: seq<Device>, d: Device): seq<Device> {
    var i := Position(devices, d.id);
    if i < |devices| then devices[i := d] else devices + [d]
  }

  function AddDevice(b: Book, userId: string, d: Device): Book {
    var a := if userId in b.accounts then b.accounts[userId] else Account(userId, []);
    Book(b.accounts[userId := a.(devices := Granted(a.devices, d))], b.index[d.id := userId])
  }

  function RemoveDevice(b: Book, userId: string, id: string): Book {
    if userId !in b.accounts then b
    else
      var a := b.accounts[userId];
      var i := Position(a.devices, id);
      if i == |a.devices| then b
      else Book(b.accounts[userId := a.(devices := a.devices[..i] + a.devices[i + 1..])], b.index - {id})
  }

  function GetDevice(b: Book, id: string): Option<(Device, Account)>
    requires id in b.index ==> b.index[id] in b.accounts  // a nil account is dereferenced otherwise
  {
    if id !in b.index then None
    else
      var a := b.accounts[b.index[id]];
      var i := Position(a.devices, id);
      if i == |a.devices| then None else Some((a.devices[i], a))
  }

  /** Reloading from a list of account records. */
  function Load(records: seq<Account>): Book {
    if records == [] then EMPTY_BOOK
    else
      var b, a := Load(records[..|records| - 1]), records[|records| - 1];
      Book(b.accounts[a.userId := a], Pointed(b.index, a))
  }

  datatype Callback = Callback(userId: string, action: string, device: Device)

  function ProcessCallback(b: Book, c: Callback): Result<Book, string> {
    if c.action == "add" then Ok(AddDevice(b, c.userId, c.device.(online := false)))
    else if c.action == "remove" then Ok(RemoveDevice(b, c.userId, c.device.id))
    else Err("unknown callback action")
  }

  datatype Operation =
    | OpAddAccount(a: Account)
    | OpRemoveAccount(userId: string)
    | OpAddDevice(userId: string, d: Device)
    | OpRemoveDevice(userId: string, id: string)
    | OpCallback(c: Callback)

  function Perform(b: Book, op: Operation): Book {
    match op
    case OpAddAccount(a) => AddAccount(b, a)
    case OpRemoveAccount(u) => RemoveAccount(b, u)
    case OpAddDevice(u, d) => AddDevice(b, u, d)
    case OpRemoveDevice(u, id) => RemoveDevice(b, u, id)
    case OpCallback(c) => var r := ProcessCallback(b, c); if r.Ok? then r.value else b
  }

  function PerformAll(b: Book, ops: seq<Operation>): Book
    decreases |ops|
  {
    if ops == [] then b else PerformAll(Perform(b, ops[0]), ops[1..])
  }

  // ----------------------------------------------------------- what each operation changes

  /** Every account but u's is what it was. */
  ghost predicate OthersKept(b: Book, b': Book, u: string) {
    forall v | v != u ::
      (v in b'.accounts <==> v in b.accounts) && (v in b.accounts ==> b'.accounts[v] == b.accounts[v])
  }

  /** The entry for an id is what it was. */
  predicate EntryKept(b: Book, b': Book, id: string) {
    (id in b'.index <==> id in b.index) && (id in b.index ==> b'.index[id] == b.index[id])
  }

  /** The record takes the place of the first one with its id, or the end; the others stay. */
  lemma GrantedStores(devices: seq<Device>, d: Device)
    ensures
      var i, after := Position(devices, d.id), Granted(devices, d);
      && |after| == |devices| + (if i == |devices| then 1 else 0)
      && after[i] == d && Position(after, d.id) == i
      && forall k | 0 <= k < |devices| && k != i :: after[k] == devices[k]
  {
    var i, after := Position(devices, d.id), Granted(devices, d);
    assert forall j: nat | j < i :: after[j] == devices[j];
  }

  /** After a grant a lookup yields exactly the granted record, under the user it was granted to;
      the other records of that user, all other users and all other entries are what they were. */
  lemma AddDeviceStores(b: Book, u: string, d: Device)
    ensures
      var b' := AddDevice(b, u, d);
      var devices := if u in b.accounts then b.accounts[u].devices else [];
      var i := Position(devices, d.id);
      && u in b'.accounts && d.id in b'.index && b'.index[d.id] == u
      && GetDevice(b', d.id) == Some((d, b'.accounts[u]))
      && b'.accounts[u].userId == (if u in b.accounts then b.accounts[u].userId else u)
      && |b'.accounts[u].devices| == |devices| + (if i == |devices| then 1 else 0)
      && (forall k | 0 <= k < |devices| && k != i :: b'.accounts[u].devices[k] == devices[k])
      && OthersKept(b, b', u)
      && forall id | id != d.id :: EntryKept(b, b', id)
  {
    GrantedStores(if u in b.accounts then b.accounts[u].devices else [], d);
  }

  /** A revocation takes away the first record with the id and the id's entry; the other records of
      the user stay in order, and all other users and entries are what they were.  Without such a
      record it changes nothing. */
  lemma RemoveDeviceRemoves(b: Book, u: string, id: string)
    ensures
      var b' := RemoveDevice(b, u, id);
      if u !in b.accounts || !Lists(b.accounts[u], id) then b' == b
      else
        var devices, i := b.accounts[u].devices, Position(b.accounts[u].devices, id);
        && i < |devices| && u in b'.accounts && b'.accounts[u].userId == b.accounts[u].userId
        && |b'.accounts[u].devices| == |devices| - 1
        && (forall k | 0 <= k < |devices| - 1 ::
              b'.accounts[u].devices[k] == devices[if k < i then k else k + 1])
        && id !in b'.index
        && OthersKept(b, b', u)
        && forall x | x != id :: EntryKept(b, b', x)
  {
    if u in b.accounts {
      ListedHasPosition(b.accounts[u], id);
    }
  }

  lemma ListedHasPosition(a: Account, id: string)
    ensures Lists(a, id) <==> Position(a.devices, id) < |a.devices|
  {
    if d :| d in a.devices && d.id == id {
      var j :| 0 <= j < |a.devices| && a.devices[j] == d;
      assert Position(a.devices, id) <= j;
    }
  }

  /** An account is stored as given; its devices' entries point at it, those of the devices it no
      longer lists go, and all other entries and accounts are what they were. */
  lemma AddAccountStores(b: Book, a: Account)
    ensures
      var b', u := AddAccount(b, a), a.userId;
      && u in b'.accounts && b'.accounts[u] == a && OthersKept(b, b', u)
      && forall id ::
           if Lists(a, id) then id in b'.index && b'.index[id] == u
           else if u in b.accounts && Lists(b.accounts[u], id) then id !in b'.index
           else EntryKept(b, b', id)
  {
  }

  /** Removing an account takes away its record and the entries of all devices it lists; all other
      accounts and entries are what they were. */
  lemma RemoveAccountRemoves(b: Book, u: string)
    ensures
      var b' := Perform(b, OpRemoveAccount(u));
      && u !in b'.accounts && OthersKept(b, b', u)
      && forall id ::
           if u in b.accounts && Lists(b.accounts[u], id) then id !in b'.index else EntryKept(b, b', id)
  {
  }

  /** A grant by callback stores the callback's device as offline; a revocation by callback is a
      revocation; any other action fails and changes nothing. */
  lemma CallbackActs(b: Book, c: Callback)
    ensures ProcessCallback(b, c).Ok? <==> c.action == "add" || c.action == "remove"
    ensures c.action == "add" ==>
              var b' := Perform(b, OpCallback(c));
              && (c.device.id in b'.index ==> b'.index[c.device.id] in b'.accounts)
              && GetDevice(b', c.device.id).Some?
              && GetDevice(b', c.device.id).value.0 == c.device.(online := false)
              && c.userId in b'.accounts && GetDevice(b', c.device.id).value.1 == b'.accounts[c.userId]
    ensures c.action == "remove" ==> Perform(b, OpCallback(c)) == RemoveDevice(b, c.userId, c.device.id)
    ensures ProcessCallback(b, c).Err? ==> Perform(b, OpCallback(c)) == b
  {
    AddDeviceStores(b, c.userId, c.device.(online := false));
  }

  // ------------------------------------------------------------------- the index is sound

  /** Records are filed under their own user, and every index entry names an account that
      lists the device. */
  ghost predicate Sound(b: Book) {
    && (forall u <- b.accounts :: b.accounts[u].userId == u)
    && (forall id <- b.index :: b.index[id] in b.accounts && Lists(b.accounts[b.index[id]], id))
  }

  lemma GrantedLists(devices: seq<Device>, d: Device)
    ensures Ids(Granted(devices, d)) == Ids(devices) + {d.id}
  {
    var i, after := Position(devices, d.id), Granted(devices, d);
    forall id | id in Ids(devices) + {d.id} ensures id in Ids(after) {
      if id == d.id {
        assert after[i] == d;
      } else {
        var k: nat :| k < |devices| && devices[k].id == id;
        assert after[k] == devices[k];
      }
    }
    forall x | x in after ensures x.id in Ids(devices) + {d.id} {
      assert x in devices || x == d;
    }
  }

  lemma RevokedLists(devices: seq<Device>, i: nat)
    requires i < |devices|
    ensures Ids(devices) - {devices[i].id} <= Ids(devices[..i] + devices[i + 1..]) <= Ids(devices)
  {
    var after := devices[..i] + devices[i + 1..];
    forall id | id in Ids(devices) && id != devices[i].id ensures id in Ids(after) {
      var k: nat :| k < |devices| && devices[k].id == id;
      assert after[if k < i then k else k - 1] == devices[k];
    }
    assert forall x <- after :: x in devices;
  }

  lemma SoundStep(b: Book, op: Operation)
    requires Sound(b)
    ensures Sound(Perform(b, op))
  {
    match op
    case OpAddAccount(a) =>
    case OpRemoveAccount(u) =>
    case OpAddDevice(u, d) => SoundAddDevice(b, u, d);
    case OpRemoveDevice(u, id) => SoundRemoveDevice(b, u, id);
    case OpCallback(c) =>
      if c.action == "add" {
        SoundAddDevice(b, c.userId, c.device.(online := false));
      } else if c.action == "remove" {
        SoundRemoveDevice(b, c.userId, c.device.id);
      }
  }

  lemma SoundAddDevice(b: Book, u: string, d: Device)
    requires Sound(b)
    ensures Sound(AddDevice(b, u, d))
  {
    var a := if u in b.accounts then b.accounts[u] else Account(u, []);
    GrantedLists(a.devices, d);
    var b' := AddDevice(b, u, d);
    forall id | id in b'.index ensures b'.index[id] in b'.accounts && Lists(b'.accounts[b'.index[id]], id) {
      if b'.index[id] == u {
        assert id in Ids(a.devices) + {d.id};
        assert id in Ids(b'.accounts[u].devices);
      }
    }
  }

  lemma SoundRemoveDevice(b: Book, u: string, id: string)
    requires Sound(b)
    ensures Sound(RemoveDevice(b, u, id))
  {
    if u in b.accounts && Position(b.accounts[u].devices, id) < |b.accounts[u].devices| {
      RevokedLists(b.accounts[u].devices, Position(b.accounts[u].devices, id));
      var b' := RemoveDevice(b, u, id);
      forall x | x in b'.index ensures b'.index[x] in b'.accounts && Lists(b'.accounts[b'.index[x]], x) {
        if b'.index[x] == u {
          assert x in Ids(b.accounts[u].devices) && x in Ids(b'.accounts[u].devices);
        }
      }
    }
  }

  /** Over any history the index never names a missing account or a device it does not list, so
      a lookup finds a device exactly when it is indexed. */
  lemma {:induction false} HistoryIsSound(b: Book, ops: seq<Operation>, id: string)
    requires Sound(b)
    ensures Sound(PerformAll(b, ops))
    ensures
      var b' := PerformAll(b, ops);
      && (GetDevice(b', id).Some? <==> id in b'.index)
      && (id in b'.index ==>
            var (d, a) := GetDevice(b', id).value;
            d.id == id && a.userId == b'.index[id] && d in a.devices)
    decreases |ops|
  {
    if ops != [] {
      SoundStep(b, ops[0]);
      HistoryIsSound(Perform(b, ops[0]), ops[1..], id);
    }
  }

  // -------------------------------------------------------------- the index is the inverse

  predicate NoRepeats(devices: seq<Device>) {
    forall i, j | 0 <= i < j < |devices| :: devices[i].id != devices[j].id
  }

  /** User u's list repeats no device, and the index points all of it at u. */
  ghost predicate ExactAccount(b: Book, u: string)
    requires u in b.accounts
  {
    var devices := b.accounts[u].devices;
    NoRepeats(devices) && forall d <- devices :: d.id in b.index && b.index[d.id] == u
  }

  /** The index is the exact inverse of the lists. */
  ghost predicate Exact(b: Book) {
    Sound(b) && forall u <- b.accounts :: ExactAccount(b, u)
  }

  /** The caller's side: nothing is granted twice in a record, or to a second user. */
  ghost predicate Disjoint(b: Book, op: Operation) {
    match op
    case OpAddAccount(a) =>
      NoRepeats(a.devices) && forall d <- a.devices :: d.id in b.index ==> b.index[d.id] == a.userId
    case OpAddDevice(u, d) => d.id in b.index ==> b.index[d.id] == u
    case OpCallback(c) => c.action == "add" && c.device.id in b.index ==> b.index[c.device.id] == c.userId
    case _ => true
  }

  lemma GrantedNoRepeats(devices: seq<Device>, d: Device)
    requires NoRepeats(devices)
    ensures NoRepeats(Granted(devices, d))
  {
  }

  /** An operation keeps the index exact if and only if it grants no device to a second user and
      lists none twice. */
  lemma ExactIffDisjoint(b: Book, op: Operation)
    requires Exact(b)
    ensures Exact(Perform(b, op)) <==> Disjoint(b, op)
  {
    SoundStep(b, op);
    match op
    case OpAddAccount(a) => ExactAddAccount(b, a);
    case OpRemoveAccount(u) => ExactRemoveAccount(b, u);
    case OpAddDevice(u, d) => ExactAddDevice(b, u, d);
    case OpRemoveDevice(u, id) => ExactRemoveDevice(b, u, id);
    case OpCallback(c) =>
      if c.action == "add" {
        ExactAddDevice(b, c.userId, c.device.(online := false));
      } else if c.action == "remove" {
        ExactRemoveDevice(b, c.userId, c.device.id);
      }
  }

  lemma ExactAddAccount(b: Book, a: Account)
    requires Exact(b)
    ensures Exact(AddAccount(b, a)) <==> Disjoint(b, OpAddAccount(a))
  {
    SoundStep(b, OpAddAccount(a));
    var b' := AddAccount(b, a);
    if Disjoint(b, OpAddAccount(a)) {
      forall u | u in b'.accounts ensures ExactAccount(b', u) {
        OtherAccountStaysExact(b, a, u);
      }
    } else if NoRepeats(a.devices) {
      var d :| d in a.devices && d.id in b.index && b.index[d.id] != a.userId;
      SecondRecordIsInexact(b, a, d);
    } else {
      assert !ExactAccount(b', a.userId);
    }
  }

  lemma SecondRecordIsInexact(b: Book, a: Account, d: Device)
    requires Exact(b) && d in a.devices && d.id in b.index && b.index[d.id] != a.userId
    ensures !Exact(AddAccount(b, a))
  {
    var v := b.index[d.id];
    assert Lists(b.accounts[v], d.id);
    assert AddAccount(b, a).index[d.id] == a.userId;
    assert !ExactAccount(AddAccount(b, a), v);
  }

  lemma OtherAccountStaysExact(b: Book, a: Account, u: string)
    requires Exact(b) && Disjoint(b, OpAddAccount(a)) && u in AddAccount(b, a).accounts
    ensures ExactAccount(AddAccount(b, a), u)
  {
    if u != a.userId {
      assert ExactAccount(b, u);
      if a.userId in b.accounts {
        assert ExactAccount(b, a.userId);
      }
    }
  }

  lemma ExactRemoveAccount(b: Book, u: string)
    requires Exact(b)
    ensures Exact(RemoveAccount(b, u))
  {
    SoundStep(b, OpRemoveAccount(u));
    var b' := RemoveAccount(b, u);
    forall v | v in b'.accounts ensures ExactAccount(b', v) {
      assert ExactAccount(b, v);
      if u in b.accounts {
        assert ExactAccount(b, u);
      }
    }
  }

  lemma ExactAddDevice(b: Book, u: string, d: Device)
    requires Exact(b)
    ensures Exact(AddDevice(b, u, d)) <==> (d.id in b.index ==> b.index[d.id] == u)
  {
    SoundAddDevice(b, u, d);
    var b' := AddDevice(b, u, d);
    if d.id in b.index && b.index[d.id] != u {
      SecondGrantIsInexact(b, u, d);
    } else {
      forall v | v in b'.accounts ensures ExactAccount(b', v) {
        GrantStaysExact(b, u, d, v);
      }
    }
  }

  lemma SecondGrantIsInexact(b: Book, u: string, d: Device)
    requires Exact(b) && d.id in b.index && b.index[d.id] != u
    ensures !Exact(AddDevice(b, u, d))
  {
    var b', v := AddDevice(b, u, d), b.index[d.id];
    assert Lists(b.accounts[v], d.id);
    assert b'.accounts[v] == b.accounts[v];
    assert !ExactAccount(b', v);
  }

  /** A device granted to two users and then revoked from the second: the first still has it in
      the list, and a lookup finds nothing. */
  lemma SecondGrantLosesEntry(d: Device)
    ensures
      var b := PerformAll(
        Book(map[], map[]), [OpAddDevice("a", d), OpAddDevice("b", d), OpRemoveDevice("b", d.id)]);
      "a" in b.accounts && b.accounts["a"].devices == [d] && d.id !in b.index && GetDevice(b, d.id) == None
  {
    var b0 := Book(map[], map[]);
    var ops := [OpAddDevice("a", d), OpAddDevice("b", d), OpRemoveDevice("b", d.id)];
    var b1 := Perform(b0, ops[0]);
    var b2 := Perform(b1, ops[1]);
    assert Granted([], d) == [d];
    assert b2.accounts["b"].devices == [d] && Position([d], d.id) == 0;
    var b3 := Perform(b2, ops[2]);
    assert ops[1..] == [ops[1], ops[2]] && ops[1..][1..] == [ops[2]] && ops[1..][1..][1..] == [];
    assert PerformAll(b2, ops[1..][1..]) == b3;
    assert PerformAll(b1, ops[1..]) == b3;
  }

  lemma GrantStaysExact(b: Book, u: string, d: Device, v: string)
    requires Exact(b) && (d.id in b.index ==> b.index[d.id] == u)
    requires v in AddDevice(b, u, d).accounts
    ensures ExactAccount(AddDevice(b, u, d), v)
  {
    if v in b.accounts {
      assert ExactAccount(b, v);
    }
    if v == u {
      var a := if u in b.accounts then b.accounts[u] else Account(u, []);
      GrantedNoRepeats(a.devices, d);
      assert forall x <- Granted(a.devices, d) :: x in a.devices || x == d;
    }
  }

  lemma ExactRemoveDevice(b: Book, u: string, id: string)
    requires Exact(b)
    ensures Exact(RemoveDevice(b, u, id))
  {
    SoundRemoveDevice(b, u, id);
    var b' := RemoveDevice(b, u, id);
    if b' != b {
      var devices := b.accounts[u].devices;
      assert ExactAccount(b, u);
      RevokedIsGone(devices, Position(devices, id));
      forall v | v in b'.accounts ensures ExactAccount(b', v) {
        assert ExactAccount(b, v);
        assert devices[Position(devices, id)] in devices;
      }
    }
  }

  lemma RevokedIsGone(devices: seq<Device>, i: nat)
    requires i < |devices| && NoRepeats(devices)
    ensures NoRepeats(devices[..i] + devices[i + 1..])
    ensures forall x <- devices[..i] + devices[i + 1..] :: x in devices && x.id != devices[i].id
  {
  }

  ghost predicate AllDisjoint(b: Book, ops: seq<Operation>)
    decreases |ops|
  {
    ops == [] || (Disjoint(b, ops[0]) && AllDisjoint(Perform(b, ops[0]), ops[1..]))
  }

  /** The number of devices over all lists, in any order of the accounts. */
  ghost function TotalListed(accounts: map<string, Account>): nat {
    if accounts == map[] then 0
    else
      var u :| u in accounts;
      |accounts[u].devices| + TotalListed(accounts - {u})
  }

  lemma {:induction false} NoRepeatsCount(devices: seq<Device>)
    requires NoRepeats(devices)
    ensures |Ids(devices)| == |devices|
  {
    if devices != [] {
      var init := devices[..|devices| - 1];
      NoRepeatsCount(init);
      assert Ids(devices) == Ids(init) + {devices[|devices| - 1].id};
    }
  }

  lemma {:induction false} ExactCounts(b: Book)
    requires Exact(b)
    ensures |b.index| == TotalListed(b.accounts)
    decreases |b.accounts|
  {
    if b.accounts == map[] {
      assert b.index.Keys == {};
    } else {
      var u :| u in b.accounts && TotalListed(b.accounts) == |b.accounts[u].devices| + TotalListed(b.accounts - {u});
      ExactRemoveAccount(b, u);
      assert b.accounts.Keys == (b.accounts - {u}).Keys + {u};
      ExactCounts(RemoveAccount(b, u));
      RemovalCount(b, u);
    }
  }

  lemma RemovalCount(b: Book, u: string)
    requires u in b.accounts && ExactAccount(b, u)
    ensures |b.index| == |RemoveAccount(b, u).index| + |b.accounts[u].devices|
  {
    var ids := Ids(b.accounts[u].devices);
    NoRepeatsCount(b.accounts[u].devices);
    assert forall d <- b.accounts[u].devices :: d.id in b.index;
    assert ids <= b.index.Keys;
    assert (b.index - ids).Keys == b.index.Keys - ids;
  }

  /** On histories that list each device once and under one user, the index is the exact inverse
      of the lists and DeviceCount is their total length. */
  lemma {:induction false} HistoryIsExact(b: Book, ops: seq<Operation>)
    requires Exact(b) && AllDisjoint(b, ops)
    ensures Exact(PerformAll(b, ops))
    ensures |PerformAll(b, ops).index| == TotalListed(PerformAll(b, ops).accounts)
    decreases |ops|
  {
    if ops == [] {
      ExactCounts(b);
    } else {
      ExactIffDisjoint(b, ops[0]);
      HistoryIsExact(Perform(b, ops[0]), ops[1..]);
    }
  }

  lemma {:induction false} PositionOfNew(devices: seq<Device>, d: Device)
    requires forall x <- devices :: x.id != d.id
    ensures Position(devices, d.id) == Position(devices + [d], d.id) == |devices|
  {
    if devices != [] {
      assert (devices + [d])[1..] == devices[1..] + [d];
      PositionOfNew(devices[1..], d);
    }
  }

  /** A grant of an unlisted device is undone by its revocation. */
  lemma RevokeUndoesGrant(b: Book, u: string, d: Device)
    requires Exact(b) && u in b.accounts && d.id !in b.index
    ensures RemoveDevice(AddDevice(b, u, d), u, d.id) == b
  {
    var devices := b.accounts[u].devices;
    assert ExactAccount(b, u);
    PositionOfNew(devices, d);
    assert (devices + [d])[..|devices|] + (devices + [d])[|devices| + 1..] == devices;
    RestoresMaps(b, u, b.accounts[u].(devices := devices + [d]), d.id);
  }

  lemma RestoresMaps(b: Book, u: string, changed: Account, id: string)
    requires u in b.accounts && id !in b.index
    ensures b.accounts[u := changed][u := b.accounts[u]] == b.accounts
    ensures b.index[id := u] - {id} == b.index
  {
  }

  // ------------------------------------------------------------------------- reloading

  /** The last record of a user, or -1. */
  function LastOf(records: seq<Account>, u: string): (k: int)
    ensures -1 <= k < |records|
    ensures k >= 0 ==> records[k].userId == u
    ensures forall j | k < j < |records| :: records[j].userId != u
  {
    var n := |records| - 1;
    if records == [] then -1 else if records[n].userId == u then n else LastOf(records[..n], u)
  }

  /** The last record that lists a device, or -1. */
  function LastListing(records: seq<Account>, id: string): (k: int)
    ensures -1 <= k < |records|
    ensures k >= 0 ==> Lists(records[k], id)
    ensures forall j | k < j < |records| :: !Lists(records[j], id)
  {
    var n := |records| - 1;
    if records == [] then -1 else if Lists(records[n], id) then n else LastListing(records[..n], id)
  }

  /** Reloading files per user the last record, and per device the user of the last record
      that lists it. */
  lemma {:induction false} LoadIsLast(records: seq<Account>, u: string, id: string)
    ensures
      var b, k := Load(records), LastOf(records, u);
      (u in b.accounts <==> k >= 0) && (k >= 0 ==> b.accounts[u] == records[k])
    ensures
      var b, k := Load(records), LastListing(records, id);
      (id in b.index <==> k >= 0) && (k >= 0 ==> b.index[id] == records[k].userId)
  {
    if records != [] {
      var n := |records| - 1;
      LoadIsLast(records[..n], u, id);
      assert Lists(records[n], id) <==> id in Ids(records[n].devices);
    }
  }

  /** A later record for the same user replaces record k. */
  predicate Superseded(records: seq<Account>, k: nat)
    requires k < |records|
  {
    exists j | k < j < |records| :: records[j].userId == records[k].userId
  }

  predicate ListedLater(records: seq<Account>, k: nat, id: string)
    requires k < |records|
  {
    exists j | k < j < |records| :: Lists(records[j], id)
  }

  /** Every device of a record that a later one replaces is listed again by a later record. */
  predicate NothingLost(records: seq<Account>) {
    forall k: nat | k < |records| && Superseded(records, k) ::
      forall d <- records[k].devices :: ListedLater(records, k, d.id)
  }

  /** Reloading yields a sound index if and only if no replaced record holds a device that no
      later record lists; in particular whenever user ids are distinct. */
  lemma LoadSoundIffNothingLost(records: seq<Account>)
    ensures Sound(Load(records)) <==> NothingLost(records)
    ensures (forall i, j | 0 <= i < j < |records| :: records[i].userId != records[j].userId) ==> NothingLost(records)
  {
    var b := Load(records);
    if NothingLost(records) {
      forall u | u in b.accounts ensures b.accounts[u].userId == u {
        LoadIsLast(records, u, "");
      }
      forall id | id in b.index ensures b.index[id] in b.accounts && Lists(b.accounts[b.index[id]], id) {
        LoadIsLast(records, b.index[id], id);
        var k := LastListing(records, id);
        assert !Superseded(records, k);
        assert LastOf(records, records[k].userId) == k;
      }
    } else {
      LostDeviceIsUnsound(records);
    }
  }

  lemma LostDeviceIsUnsound(records: seq<Account>)
    requires !NothingLost(records)
    ensures !Sound(Load(records))
  {
    var b := Load(records);
    var k: nat :| k < |records| && Superseded(records, k)
                  && exists d <- records[k].devices :: !ListedLater(records, k, d.id);
    var d :| d in records[k].devices && !ListedLater(records, k, d.id);
    var u := records[k].userId;
    assert Lists(records[k], d.id);
    LoadIsLast(records, u, d.id);
    assert LastListing(records, d.id) == k;
    assert LastOf(records, u) > k;
    assert !Lists(b.accounts[b.index[d.id]], d.id);
  }

  /** Saving and reloading restores an exact book, whatever order the accounts are written in. */
  lemma SaveThenLoad(b: Book, records: seq<Account>)
    requires Exact(b)
    requires (set a <- records) == b.accounts.Values
    ensures Load(records) == b
  {
    forall a | a in records ensures a.userId in b.accounts && b.accounts[a.userId] == a {
      assert a in (set x <- records);
      assert a in b.accounts.Values;
      var u :| u in b.accounts && b.accounts[u] == a;
    }
    forall u | u in b.accounts ensures b.accounts[u] in records {
      assert b.accounts[u] in b.accounts.Values;
      assert b.accounts[u] in (set x <- records);
    }
    LoadedAccounts(b, records);
    forall id ensures id in Load(records).index <==> id in b.index
              ensures id in b.index ==> Load(records).index[id] == b.index[id]
    {
      LoadedIndex(b, records, id);
    }
    assert Load(records).index == b.index;
  }

  lemma LoadedAccounts(b: Book, records: seq<Account>)
    requires Sound(b)
    requires forall u <- b.accounts :: b.accounts[u] in records
    requires forall a <- records :: a.userId in b.accounts && b.accounts[a.userId] == a
    ensures Load(records).accounts == b.accounts
  {
    forall u ensures u in Load(records).accounts <==> u in b.accounts
             ensures u in b.accounts ==> Load(records).accounts[u] == b.accounts[u]
    {
      LoadIsLast(records, u, "");
      var k := LastOf(records, u);
      if k >= 0 {
        assert records[k] in records;
      }
    }
  }

  lemma LoadedIndex(b: Book, records: seq<Account>, id: string)
    requires Exact(b)
    requires forall u <- b.accounts :: b.accounts[u] in records
    requires forall a <- records :: a.userId in b.accounts && b.accounts[a.userId] == a
    ensures id in Load(records).index <==> id in b.index
    ensures id in b.index ==> Load(records).index[id] == b.index[id]
  {
    LoadIsLast(records, "", id);
    var k := LastListing(records, id);
    if k >= 0 {
      assert records[k] in records;
    }
    if id in b.index {
      var a := b.accounts[b.index[id]];
      assert a in records && Lists(a, id);
    }
  }
}
