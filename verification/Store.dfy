/** The enrolled devices, in memory and on disk (internal/auth/store.go). */
module Store {
  import opened Prelude
  import opened Text
  import opened Sorting

  datatype Device = Device(id: string, name: string, tokenHash: string, userAgent: string, createdAt: int, lastSeen: int)

  /** Oldest first, id breaking ties. */
  predicate Older(a: Device, b: Device) {
    a.createdAt < b.createdAt || (a.createdAt == b.createdAt && Less(a.id, b.id))
  }

  const OLDER := (a: Device, b: Device) => Older(a, b)

  /** Each device under its own id. */
  predicate Keyed(devices: map<string, Device>) {
    forall id | id in devices :: devices[id].id == id
  }

  /** What a file holding these devices loads as. */
  function Loaded(file: seq<Device>): (devices: map<string, Device>)
    ensures Keyed(devices)
  {
    if file == [] then map[]
    else
      var d := file[|file| - 1];
      Loaded(file[..|file| - 1])[d.id := d]
  }

  /** The file: every device, oldest first. */
  ghost predicate IsListing(file: seq<Device>, devices: map<string, Device>) {
    Lists(file, devices.Values) && Ascending(OLDER, file)
  }

  lemma OlderOrders(devices: map<string, Device>)
    requires Keyed(devices)
    ensures Orders(OLDER, devices.Values)
  {
    forall x, y | x in devices.Values && y in devices.Values
      ensures OLDER(x, y) ==> !OLDER(y, x)
      ensures x != y ==> OLDER(x, y) || OLDER(y, x)
    {
      LessOneWay(x.id, y.id);
      assert x.id in devices && devices[x.id] == x && y.id in devices && devices[y.id] == y;
    }
    forall x, y, z | OLDER(x, y) && OLDER(y, z)
      ensures OLDER(x, z)
    {
      if x.createdAt == y.createdAt == z.createdAt {
        LessChains(x.id, y.id, z.id);
      }
    }
  }

  /** The listing does not depend on the order a map is walked in. */
  lemma ListingIsUnique(a: seq<Device>, b: seq<Device>, devices: map<string, Device>)
    requires Keyed(devices) && IsListing(a, devices) && IsListing(b, devices)
    ensures a == b
  {
    OlderOrders(devices);
    AscendingIsUnique(OLDER, a, b, devices.Values);
  }

  /** Oldest first: of two devices the one listed before was created no later, and of two
      created at once it has the smaller id. */
  lemma OldestFirst(file: seq<Device>, devices: map<string, Device>, i: nat, j: nat)
    requires IsListing(file, devices) && i < j < |file|
    ensures file[i].createdAt <= file[j].createdAt
    ensures file[i].createdAt == file[j].createdAt ==> exists k: nat :: SmallerAt(file[i].id, file[j].id, k)
  {
    assert OLDER(file[i], file[j]);
    LessIs(file[i].id, file[j].id);
  }

  lemma {:induction false} LoadedHolds(file: seq<Device>)
    requires forall i, j | 0 <= i < j < |file| :: file[i].id != file[j].id
    ensures forall id :: id in Loaded(file) <==> exists i :: 0 <= i < |file| && file[i].id == id
    ensures forall i | 0 <= i < |file| :: file[i].id in Loaded(file) && Loaded(file)[file[i].id] == file[i]
  {
    if file != [] {
      LoadedHolds(file[..|file| - 1]);
    }
  }

  /** Writing the devices and loading the file again loses nothing. */
  lemma ListingLoads(file: seq<Device>, devices: map<string, Device>)
    requires Keyed(devices) && IsListing(file, devices)
    ensures Loaded(file) == devices
  {
    forall i, j | 0 <= i < j < |file|
      ensures file[i].id != file[j].id
    {
      assert file[i] in devices.Values && file[j] in devices.Values;
    }
    LoadedHolds(file);
    forall id | id in devices
      ensures id in Loaded(file) && Loaded(file)[id] == devices[id]
    {
      assert devices[id] in file;
    }
    forall id | id in Loaded(file)
      ensures id in devices
    {
      var i :| 0 <= i < |file| && file[i].id == id;
      assert file[i] in devices.Values;
    }
  }

  datatype Answer = Done | NoSuch | NotWritten

  class Store {
    var devices: map<string, Device>
    // The file as it stands, whoever reads it.
    var file: seq<Device>

    /** Memory and disk say the same. */
    ghost predicate InStep()
      reads this
    {
      Keyed(devices) && Loaded(file) == devices
    }

    constructor Open(file: seq<Device>)
      ensures this.file == file && InStep()
    {
      this.file := file;
      devices := Loaded(file);
    }

    /** The devices oldest first, collected in whatever order the map gives them. */
    method SortedDevices() returns (out: seq<Device>)
      requires Keyed(devices)
      ensures IsListing(out, devices)
    {
      var found: seq<Device> := [];
      var left := devices.Keys;
      while left != {}
        invariant left <= devices.Keys
        invariant forall i | 0 <= i < |found| :: found[i].id in devices.Keys - left && devices[found[i].id] == found[i]
        invariant forall id | id in devices.Keys - left :: devices[id] in found
        invariant forall i, j | 0 <= i < j < |found| :: found[i].id != found[j].id
        decreases |left|
      {
        var id :| id in left;
        left := left - {id};
        found := found + [devices[id]];
      }
      OlderOrders(devices);
      assert Lists(found, devices.Values);
      SortedAscends(OLDER, found, devices.Values);
      out := Sorted(OLDER, found);
    }

    /** The temporary file and the rename: all of it or none of it. */
    method Persist(ok: bool) returns (written: bool)
      requires Keyed(devices)
      modifies this`file
      ensures written == ok
      ensures if ok then IsListing(file, devices) && InStep() else file == old(file)
    {
      if !ok {
        return false;
      }
      file := SortedDevices();
      ListingLoads(file, devices);
      return true;
    }

    /** A failed write forgets the device again, which puts memory back exactly when its
        id was new: only a drawn id that was already taken lets the two drift apart. */
    method AddDevice(d: Device, ok: bool) returns (added: bool)
      requires Keyed(devices)
      modifies this
      ensures added == ok && Keyed(devices)
      ensures ok ==> devices == old(devices)[d.id := d] && IsListing(file, devices) && InStep()
      ensures !ok ==> devices == old(devices) - {d.id} && file == old(file)
      ensures old(InStep()) ==> (InStep() <==> ok || d.id !in old(devices))
    {
      devices := devices[d.id := d];
      added := Persist(ok);
      if !added {
        devices := devices - {d.id};
      }
    }

    method Touch(id: string, t: int, ok: bool) returns (answer: Answer)
      requires Keyed(devices)
      modifies this
      ensures answer == if id !in old(devices) then NoSuch else if ok then Done else NotWritten
      ensures answer.Done? ==> devices == old(devices)[id := old(devices)[id].(lastSeen := t)] && IsListing(file, devices)
      ensures !answer.Done? ==> devices == old(devices) && file == old(file)
      ensures Keyed(devices) && (old(InStep()) ==> InStep())
    {
      if id !in devices {
        return NoSuch;
      }
      var d := devices[id];
      var prev := d.lastSeen;
      d := d.(lastSeen := t);
      devices := devices[id := d];
      var written := Persist(ok);
      if !written {
        d := d.(lastSeen := prev);
        devices := devices[id := d];
        assert devices == old(devices);
        return NotWritten;
      }
      return Done;
    }

    method Revoke(id: string, ok: bool) returns (answer: Answer)
      requires Keyed(devices)
      modifies this
      ensures answer == if id !in old(devices) then NoSuch else if ok then Done else NotWritten
      ensures answer.Done? ==> devices == old(devices) - {id} && IsListing(file, devices)
      ensures !answer.Done? ==> devices == old(devices) && file == old(file)
      ensures Keyed(devices) && (old(InStep()) ==> InStep())
    {
      if id !in devices {
        return NoSuch;
      }
      var d := devices[id];
      devices := devices - {id};
      var written := Persist(ok);
      if !written {
        devices := devices[id := d];
        assert devices == old(devices);
        return NotWritten;
      }
      return Done;
    }
  }
}
