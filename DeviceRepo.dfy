/**
 * DeviceRepo: the devices table. A device row binds a physical device,
 * identified by its fingerprint, to the user signed in on it.
 */
module DeviceRepo {
  import opened Errors
  import opened Rows
  import opened Schema

  /** The columns of a new device that the client supplies. */
  datatype DeviceIn = DeviceIn(platform: Option<string>, fingerprint: string, info: Option<string>)

  /** The SET clause of UpdateUserId. */
  datatype DeviceUpdate = SetOwner(id: Id, userId: Id, at: nat)

  function Updated(d: Device, s: DeviceUpdate): (r: Device)
    ensures r.id == d.id && r.fingerprint == d.fingerprint && r.createdAt == d.createdAt
  {
    if d.id == s.id then d.(userId := s.userId, updatedAt := Some(s.at)) else d
  }

  function NewDevice(id: Id, userId: Id, device: DeviceIn, at: nat): Device
  {
    Device(id, userId, device.platform, device.fingerprint, device.info, at, None)
  }

  // ---------------------------------------------------------------- reads

  /** GetOne: the device with that id, or null. */
  function GetOne(devices: seq<Device>, id: Id): (r: Option<Device>)
    ensures r.Some? ==> r.value in devices && r.value.id == id
    ensures r.None? <==> forall i :: 0 <= i < |devices| ==> devices[i].id != id
  {
    First(devices, DeviceIdIs(id), DeviceMatches)
  }

  /** GetMany: exactly the user's devices, ORDER BY created_at DESC. */
  function GetMany(devices: seq<Device>, userId: Id): (r: seq<Device>)
    ensures SortedDesc(r, DeviceCreated)
    ensures multiset(r) == multiset(Filter(devices, DeviceOwnerIs(userId), DeviceMatches, true))
    ensures |r| == Count(devices, DeviceOwnerIs(userId), DeviceMatches)
    ensures forall d :: d in r <==> d in devices && d.userId == userId
  {
    var part := Filter(devices, DeviceOwnerIs(userId), DeviceMatches, true);
    var r := SortDesc(part, DeviceCreated);
    assert forall d :: d in r <==> d in multiset(part);
    r
  }

  // ---------------------------------------------------------------- statements

  /** Create: a fresh id for the device, inserted for userId; returns the id. */
  method Create(db: Db, userId: Id, device: DeviceIn) returns (id: Id)
    requires db.Valid()
    modifies db`devices, db`nextId, db`clock
    ensures db.Valid()
    ensures forall i :: 0 <= i < |old(db.devices)| ==> old(db.devices)[i].id != id
    ensures db.devices == old(db.devices) + [NewDevice(id, userId, device, old(db.clock))]
    ensures db.Snapshot() == old(db.Snapshot()).(devices := db.devices)
    ensures db.nextId == old(db.nextId) + 1 && db.clock == old(db.clock) + 1
  {
    var now;
    id, now := db.NewRow();
    KeyedAppend(db.devices, DeviceKey, id, NewDevice(id, userId, device, now));
    db.SetDevices(db.devices + [NewDevice(id, userId, device, now)]);
  }

  /** DELETE FROM devices WHERE fingerprint = @fingerprint; returns the row count. */
  method DeleteByFingerprint(db: Db, fingerprint: string) returns (removed: nat)
    requires db.Valid()
    modifies db`devices
    ensures db.Valid()
    ensures db.devices == Filter(old(db.devices), FingerprintIs(fingerprint), DeviceMatches, false)
    ensures removed == Count(old(db.devices), FingerprintIs(fingerprint), DeviceMatches)
    ensures forall i :: 0 <= i < |db.devices| ==> db.devices[i].fingerprint != fingerprint
  {
    var rows;
    rows, removed := DeleteWhere(db.devices, FingerprintIs(fingerprint), DeviceMatches);
    KeyedFilter(db.devices, DeviceKey, db.nextId, FingerprintIs(fingerprint), DeviceMatches, false);
    db.SetDevices(rows);
  }

  /** DELETE FROM devices WHERE id = @id; returns 1 when the device existed and 0 otherwise. */
  method Delete(db: Db, id: Id) returns (removed: nat)
    requires db.Valid()
    modifies db`devices
    ensures db.Valid()
    ensures db.devices == Filter(old(db.devices), DeviceIdIs(id), DeviceMatches, false)
    ensures removed == if GetOne(old(db.devices), id).Some? then 1 else 0
  {
    var rows;
    rows, removed := DeleteWhere(db.devices, DeviceIdIs(id), DeviceMatches);
    KeyedFilter(db.devices, DeviceKey, db.nextId, DeviceIdIs(id), DeviceMatches, false);
    IdCount(db.devices, db.nextId, id);
    db.SetDevices(rows);
  }

  /** UPDATE devices SET user_id WHERE id = @id; returns 1 when the device existed and 0 otherwise. */
  method UpdateUserId(db: Db, id: Id, userId: Id) returns (updated: nat)
    requires db.Valid()
    modifies db`devices
    ensures db.Valid()
    ensures db.devices == UpdateAll(old(db.devices), SetOwner(id, userId, db.clock), Updated)
    ensures updated == if GetOne(old(db.devices), id).Some? then 1 else 0
  {
    updated := Count(db.devices, DeviceIdIs(id), DeviceMatches);
    IdCount(db.devices, db.nextId, id);
    var rows := UpdateEach(db.devices, SetOwner(id, userId, db.clock), Updated);
    KeyedUpdated(db.devices, db.nextId, SetOwner(id, userId, db.clock));
    db.SetDevices(rows);
  }

  /** In a keyed table, an id matches one row when GetOne finds it and none otherwise. */
  lemma IdCount(devices: seq<Device>, bound: nat, id: Id)
    requires Keyed(devices, DeviceKey, bound)
    ensures Count(devices, DeviceIdIs(id), DeviceMatches) == if GetOne(devices, id).Some? then 1 else 0
  {
    KeyedAtMostOne(devices, DeviceKey, bound, DeviceIdIs(id), DeviceMatches, id);
    CountZero(devices, DeviceIdIs(id), DeviceMatches);
  }

  /** Updating keeps every id, so the table stays keyed. */
  lemma KeyedUpdated(devices: seq<Device>, bound: nat, u: DeviceUpdate)
    requires Keyed(devices, DeviceKey, bound)
    ensures Keyed(UpdateAll(devices, u, Updated), DeviceKey, bound)
  {
  }

  // ---------------------------------------------------------------- properties

  /** In a keyed table, UpdateUserId of the id of row k moves row k and changes no other row. */
  lemma UpdatedAt(devices: seq<Device>, bound: nat, k: int, userId: Id, at: nat)
    requires Keyed(devices, DeviceKey, bound) && 0 <= k < |devices|
    ensures var r := UpdateAll(devices, SetOwner(devices[k].id, userId, at), Updated);
      && (forall i :: 0 <= i < |devices| && i != k ==> r[i] == devices[i])
      && r[k] == devices[k].(userId := userId, updatedAt := Some(at))
  {
    forall i | 0 <= i < |devices| && i != k
      ensures devices[i].id != devices[k].id
    {
      assert DeviceKey(devices[i]) != DeviceKey(devices[k]);
    }
  }

  /** The last of GetMany is the user's oldest device. */
  lemma LastIsOldest(devices: seq<Device>, userId: Id)
    requires |GetMany(devices, userId)| > 0
    ensures var r := GetMany(devices, userId);
      && r[|r| - 1] in devices && r[|r| - 1].userId == userId
      && forall d :: d in devices && d.userId == userId ==> r[|r| - 1].createdAt <= d.createdAt
  {
    var r := GetMany(devices, userId);
    LastIsLeast(r, DeviceCreated);
    forall d | d in devices && d.userId == userId
      ensures r[|r| - 1].createdAt <= d.createdAt
    {
      assert d in r && DeviceCreated(r[|r| - 1]) <= DeviceCreated(d);
    }
  }

  /** Moving one device of another user to userId adds one to userId's device count. */
  lemma OwnerCountAfterUpdate(devices: seq<Device>, bound: nat, k: int, userId: Id, at: nat)
    requires Keyed(devices, DeviceKey, bound) && 0 <= k < |devices| && devices[k].userId != userId
    ensures Count(UpdateAll(devices, SetOwner(devices[k].id, userId, at), Updated), DeviceOwnerIs(userId), DeviceMatches)
         == Count(devices, DeviceOwnerIs(userId), DeviceMatches) + 1
  {
    var r := UpdateAll(devices, SetOwner(devices[k].id, userId, at), Updated);
    UpdatedAt(devices, bound, k, userId, at);
    CountReplaced(devices, r, k, DeviceOwnerIs(userId), DeviceMatches);
  }

  /** Deleting one of userId's devices lowers userId's device count by one. */
  lemma OwnerCountAfterDelete(devices: seq<Device>, bound: nat, k: int)
    requires Keyed(devices, DeviceKey, bound) && 0 <= k < |devices|
    ensures var userId := devices[k].userId;
      Count(Filter(devices, DeviceIdIs(devices[k].id), DeviceMatches, false), DeviceOwnerIs(userId), DeviceMatches)
        == Count(devices, DeviceOwnerIs(userId), DeviceMatches) - 1
  {
    var id := devices[k].id;
    forall i | 0 <= i < |devices| && DeviceMatches(devices[i], DeviceIdIs(id))
      ensures i == k
    {
      KeyedUnique(devices, DeviceKey, bound, i, k);
    }
    CountOne(devices, DeviceIdIs(id), DeviceMatches, k);
    CountAfterDelete(devices, DeviceIdIs(id), DeviceOwnerIs(devices[k].userId), DeviceMatches);
  }
}
