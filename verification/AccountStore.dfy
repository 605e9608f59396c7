/**
 The account manager as the program holds it: two maps updated in place by loops over device
 lists.  Each method is proved to do one operation of `Accounts`.
 */
module AccountStore {
  import opened Wrappers
  import opened Accounts

  class AccountManager {
    var accounts: map<string, Account>
    var deviceIndex: map<string, string>

    ghost function Value(): Book
      reads this
    {
      Book(accounts, deviceIndex)
    }

    constructor ()
      ensures Value() == EMPTY_BOOK
    {
      accounts, deviceIndex := map[], map[];
    }

    method AddAccount(account: Account)
      modifies this
      ensures Value() == Accounts.AddAccount(old(Value()), account)
    {
      var known := account.userId in accounts;
      var existing := if known then accounts[account.userId].devices else [];
      accounts := accounts[account.userId := account];
      PointDevices(account);
      if known {
        var gone := NoLongerPresent(existing, account.devices);
        deviceIndex := deviceIndex - gone;
      }
    }

    /** The ids of the old list that the new one does not have. */
    static method NoLongerPresent(existing: seq<Device>, devices: seq<Device>) returns (gone: set<string>)
      ensures gone == Ids(existing) - Ids(devices)
    {
      gone := {};
      for i := 0 to |existing|
        invariant gone == Ids(existing[..i])
      {
        IdsNext(existing, i);
        gone := gone + {existing[i].id};
      }
      assert existing[..|existing|] == existing;
      for i := 0 to |devices|
        invariant gone == Ids(existing) - Ids(devices[..i])
      {
        IdsNext(devices, i);
        gone := gone - {devices[i].id};
      }
      assert devices[..|devices|] == devices;
    }

    /** The loop that points the index at an account's devices. */
    method PointDevices(account: Account)
      modifies this`deviceIndex
      ensures deviceIndex == Pointed(old(deviceIndex), account)
    {
      for i := 0 to |account.devices|
        invariant deviceIndex == Pointed(old(deviceIndex), account.(devices := account.devices[..i]))
      {
        PointedNext(old(deviceIndex), account, i);
        deviceIndex := deviceIndex[account.devices[i].id := account.userId];
      }
      assert account.devices[..|account.devices|] == account.devices;
    }

    static lemma PointedNext(index: map<string, string>, a: Account, i: nat)
      requires i < |a.devices|
      ensures Pointed(index, a.(devices := a.devices[..i + 1]))
           == Pointed(index, a.(devices := a.devices[..i]))[a.devices[i].id := a.userId]
    {
      IdsNext(a.devices, i);
      var ids, id := Ids(a.devices[..i]), a.devices[i].id;
      assert (map x | x in ids + {id} :: a.userId) == (map x | x in ids :: a.userId)[id := a.userId];
    }

    static lemma IdsNext(devices: seq<Device>, i: nat)
      requires i < |devices|
      ensures Ids(devices[..i + 1]) == Ids(devices[..i]) + {devices[i].id}
    {
      assert devices[..i + 1] == devices[..i] + [devices[i]];
    }

    method RemoveAccount(userId: string) returns (removed: bool)
      modifies this
      ensures Value() == Accounts.RemoveAccount(old(Value()), userId)
      ensures removed <==> userId in old(accounts)
    {
      if userId !in accounts {
        return false;
      }
      var devices := accounts[userId].devices;
      for i := 0 to |devices|
        invariant accounts == old(accounts)
        invariant deviceIndex == old(deviceIndex) - Ids(devices[..i])
      {
        IdsNext(devices, i);
        deviceIndex := deviceIndex - {devices[i].id};
      }
      assert devices[..|devices|] == devices;
      accounts := accounts - {userId};
      removed := true;
    }

    method AddDevice(userId: string, device: Device)
      modifies this
      ensures Value() == Accounts.AddDevice(old(Value()), userId, device)
    {
      if userId !in accounts {
        accounts := accounts[userId := Account(userId, [])];
      }
      var account := accounts[userId];
      var i := Find(account.devices, device.id);
      if i < |account.devices| {
        accounts := accounts[userId := account.(devices := account.devices[i := device])];
      } else {
        accounts := accounts[userId := account.(devices := account.devices + [device])];
      }
      deviceIndex := deviceIndex[device.id := userId];
    }

    /** The linear search every device operation starts with. */
    static method Find(devices: seq<Device>, id: string) returns (i: nat)
      ensures i == Position(devices, id)
    {
      i := 0;
      while i < |devices| && devices[i].id != id
        invariant i <= |devices|
        invariant Position(devices, id) == i + Position(devices[i..], id)
      {
        i := i + 1;
      }
    }

    method RemoveDevice(userId: string, id: string) returns (removed: bool)
      modifies this
      ensures Value() == Accounts.RemoveDevice(old(Value()), userId, id)
      ensures removed <==> userId in old(accounts) && Lists(old(accounts)[userId], id)
    {
      if userId !in accounts {
        return false;
      }
      var account := accounts[userId];
      var i := Find(account.devices, id);
      if i == |account.devices| {
        return false;
      }
      accounts := accounts[userId := account.(devices := account.devices[..i] + account.devices[i + 1..])];
      deviceIndex := deviceIndex - {id};
      removed := true;
    }

    method GetDevice(id: string) returns (found: Option<(Device, Account)>)
      requires id in deviceIndex ==> deviceIndex[id] in accounts
      ensures found == Accounts.GetDevice(Value(), id)
    {
      if id !in deviceIndex {
        return None;
      }
      var account := accounts[deviceIndex[id]];
      var i := Find(account.devices, id);
      found := if i < |account.devices| then Some((account.devices[i], account)) else None;
    }

    /** Reload from already-parsed records. */
    method FromRecords(records: seq<Account>)
      modifies this
      ensures Value() == Load(records)
    {
      accounts, deviceIndex := map[], map[];
      for k := 0 to |records|
        invariant Value() == Load(records[..k])
      {
        accounts := accounts[records[k].userId := records[k]];
        PointDevices(records[k]);
        assert records[..k + 1][..k] == records[..k];
      }
      assert records[..|records|] == records;
    }

    method ProcessCallback(c: Callback) returns (r: Result<(), string>)
      modifies this
      ensures r.Ok? <==> Accounts.ProcessCallback(old(Value()), c).Ok?
      ensures Value() == Perform(old(Value()), OpCallback(c))
    {
      if c.action == "add" {
        AddDevice(c.userId, c.device.(online := false));
        r := Ok(());
      } else if c.action == "remove" {
        var _ := RemoveDevice(c.userId, c.device.id);
        r := Ok(());
      } else {
        r := Err("unknown callback action");
      }
    }
  }
}
