/**
  The server's device table: devices move between the available list and the map of devices in
  use. Every operation runs under the device lock, so each is one atomic step.
 */
module DeviceTable {
  import opened UsbIp

  type Busid = string

  /** id tells apart two devices that carry the same bus id at different times. */
  datatype Device = Device(id: nat, busid: Busid)

  datatype AddDeviceStatus = Added | AlreadyBound | InUse

  datatype ReleaseReason = ClientDisconnected | DeviceRemoved | ServerStopped

  datatype Table = Table(available: seq<Device>, inUse: map<Busid, Device>)

  /** First available device with this bus id, or the list's length. */
  function Position(available: seq<Device>, b: Busid): (k: nat)
    ensures k <= |available| && (k < |available| ==> available[k].busid == b)
    ensures forall i :: 0 <= i < k ==> available[i].busid != b
  {
    if available == [] || available[0].busid == b then 0 else 1 + Position(available[1..], b)
  }

  function Without(available: seq<Device>, k: nat): seq<Device>
    requires k < |available|
  {
    available[..k] + available[k + 1..]
  }

  function Add(t: Table, d: Device): (AddDeviceStatus, Table) {
    if Position(t.available, d.busid) < |t.available| then (AlreadyBound, t)
    else if d.busid in t.inUse then (InUse, t)
    else (Added, t.(available := t.available + [d]))
  }

  function Detach(t: Table, b: Busid): (Option<Device>, Table) {
    var k := Position(t.available, b);
    if k == |t.available| then (None, t) else (Some(t.available[k]), t.(available := Without(t.available, k)))
  }

  function MoveToUsing(t: Table, b: Busid): (Option<Device>, Table) {
    var k := Position(t.available, b);
    if k == |t.available| then (None, t)
    else (Some(t.available[k]), Table(Without(t.available, k), t.inUse[b := t.available[k]]))
  }

  function Release(t: Table, b: Busid, removed: set<Device>, running: bool): (Option<ReleaseReason>, Table) {
    if b !in t.inUse then (None, t)
    else if t.inUse[b] in removed then (Some(DeviceRemoved), t.(inUse := t.inUse - {b}))
    else (Some(if running then ClientDisconnected else ServerStopped), Table(t.available + [t.inUse[b]], t.inUse - {b}))
  }

  // ---- what the table keeps ----

  ghost predicate DistinctBusids(available: seq<Device>) {
    forall i, j :: 0 <= i < j < |available| ==> available[i].busid != available[j].busid
  }

  /** No bus id twice, neither among the available devices nor across the two containers. */
  ghost predicate WellFormed(t: Table) {
    && DistinctBusids(t.available)
    && (forall i :: 0 <= i < |t.available| ==> t.available[i].busid !in t.inUse)
    && (forall b :: b in t.inUse ==> t.inUse[b].busid == b)
  }

  /** A removed device is never offered for import. */
  ghost predicate NoneRemoved(available: seq<Device>, removed: set<Device>) {
    forall i :: 0 <= i < |available| ==> available[i] !in removed
  }

  /** The devices the server holds, each as often as it holds it. */
  ghost function Stock(t: Table): multiset<Device> {
    multiset(t.available) + multiset(set b | b in t.inUse :: t.inUse[b])
  }

  /** rest is the list without d, in the same order. */
  ghost predicate Extracts(available: seq<Device>, d: Device, rest: seq<Device>) {
    exists k :: 0 <= k < |available| && available[k] == d && rest == available[..k] + available[k + 1..]
  }

  lemma WithoutBusids(available: seq<Device>, k: nat)
    requires k < |available| && DistinctBusids(available)
    ensures DistinctBusids(Without(available, k))
    ensures forall i :: 0 <= i < |Without(available, k)| ==> Without(available, k)[i].busid != available[k].busid
    ensures forall i :: 0 <= i < |Without(available, k)| ==> Without(available, k)[i] in available
    ensures multiset(available) == multiset(Without(available, k)) + multiset{available[k]}
  {
    var w := Without(available, k);
    forall i | 0 <= i < |w| ensures w[i] == available[if i < k then i else i + 1] {}
    assert available == available[..k] + [available[k]] + available[k + 1..];
  }

  lemma AddKeeps(t: Table, d: Device, removed: set<Device>)
    requires WellFormed(t) && NoneRemoved(t.available, removed) && d !in removed
    ensures var (status, t') := Add(t, d);
            && WellFormed(t') && NoneRemoved(t'.available, removed) && t'.inUse == t.inUse
            && (status == Added <==>
                  d.busid !in t.inUse && forall i :: 0 <= i < |t.available| ==> t.available[i].busid != d.busid)
            && (status == AlreadyBound <==> exists i :: 0 <= i < |t.available| && t.available[i].busid == d.busid)
            && (status == Added ==> Stock(t') == Stock(t) + multiset{d} && t'.available == t.available + [d])
            && (status != Added ==> t' == t)
  {
    var t' := Add(t, d).1;
    if t' != t {
      assert forall i :: 0 <= i < |t'.available| ==> t'.available[i] == if i < |t.available| then t.available[i] else d;
    }
  }

  lemma DetachKeeps(t: Table, b: Busid, removed: set<Device>)
    requires WellFormed(t) && NoneRemoved(t.available, removed)
    ensures var (r, t') := Detach(t, b);
            && WellFormed(t') && NoneRemoved(t'.available, removed) && t'.inUse == t.inUse
            && (forall i :: 0 <= i < |t'.available| ==> t'.available[i].busid != b)
            && (r.Some? ==> r.value.busid == b && Stock(t) == Stock(t') + multiset{r.value})
            && (r.Some? ==> Extracts(t.available, r.value, t'.available))
            && (r.None? ==> t' == t && forall i :: 0 <= i < |t.available| ==> t.available[i].busid != b)
  {
    var k := Position(t.available, b);
    if k < |t.available| {
      WithoutBusids(t.available, k);
    }
  }

  lemma MoveKeeps(t: Table, b: Busid, removed: set<Device>)
    requires WellFormed(t) && NoneRemoved(t.available, removed)
    ensures var (r, t') := MoveToUsing(t, b);
            && WellFormed(t') && NoneRemoved(t'.available, removed)
            && (r.Some? <==> exists i :: 0 <= i < |t.available| && t.available[i].busid == b)
            && (r.Some? ==> r.value.busid == b && b !in t.inUse && t'.inUse == t.inUse[b := r.value])
            && (r.Some? ==> Extracts(t.available, r.value, t'.available))
            && (r.None? ==> t' == t)
  {
    var k := Position(t.available, b);
    if k < |t.available| {
      WithoutBusids(t.available, k);
    }
  }

  /** Importing moves a device; the server holds the same devices as before. */
  lemma MoveKeepsStock(t: Table, b: Busid)
    requires WellFormed(t)
    ensures Stock(MoveToUsing(t, b).1) == Stock(t)
  {
    var k := Position(t.available, b);
    if k < |t.available| {
      var d, inUse' := t.available[k], t.inUse[b := t.available[k]];
      WithoutBusids(t.available, k);
      var before := set x | x in t.inUse :: t.inUse[x];
      var after := set x | x in inUse' :: inUse'[x];
      assert d !in before;
      assert inUse'[b] == d;
      forall y | y in before ensures y in after {
        var x :| x in t.inUse && t.inUse[x] == y;
        assert inUse'[x] == y;
      }
      assert after == before + {d};
      assert multiset(before + {d}) == multiset(before) + multiset{d};
    }
  }

  lemma ReleaseKeeps(t: Table, b: Busid, removed: set<Device>, running: bool)
    requires WellFormed(t) && NoneRemoved(t.available, removed)
    ensures var (r, t') := Release(t, b, removed, running);
            && WellFormed(t') && NoneRemoved(t'.available, removed) && t'.inUse == t.inUse - {b}
            && (r.Some? <==> b in t.inUse) && (r.None? ==> t' == t)
  {
    if b !in t.inUse { assert t.inUse - {b} == t.inUse; }
  }

  /** Importing a device and releasing it again gives back the same devices; if it was unplugged in
      between, exactly that device is gone. */
  lemma ImportThenRelease(t: Table, k: nat, removed: set<Device>, running: bool)
    requires WellFormed(t) && k < |t.available|
    ensures var d := t.available[k];
            var t1 := MoveToUsing(t, d.busid).1;
            var (reason, t2) := Release(t1, d.busid, removed, running);
            && t2.inUse == t.inUse
            && t2.available == Without(t.available, k) + (if d in removed then [] else [d])
            && (d !in removed ==> multiset(t2.available) == multiset(t.available))
            && (d in removed ==> multiset(t.available) == multiset(t2.available) + multiset{d})
            && reason == Some(if d in removed then DeviceRemoved
                              else if running then ClientDisconnected else ServerStopped)
  {
    var d := t.available[k];
    WithoutBusids(t.available, k);
    assert t.inUse[d.busid := d] - {d.busid} == t.inUse;
    assert Without(t.available, k) + [] == Without(t.available, k);
  }

  // ---- the operations as the server runs them ----

  class Server {
    var available: seq<Device>
    var inUse: map<Busid, Device>
    var removed: set<Device>  // devices whose handler reports is_device_removed()
    var running: bool

    ghost function View(): Table
      reads this
    {
      Table(available, inUse)
    }

    ghost predicate Valid()
      reads this
    {
      WellFormed(View()) && NoneRemoved(available, removed)
    }

    /** Duplicate bus ids are not refused; the table is sound exactly if there are none. */
    constructor (devices: seq<Device>)
      ensures View() == Table(devices, map[]) && !running && removed == {}
      ensures Valid() <==> DistinctBusids(devices)
    {
      available, inUse, removed, running := devices, map[], {}, false;
    }

    /** A device already flagged is not refused either; the table stays sound exactly if it is not added. */
    method AddDevice(d: Device) returns (status: AddDeviceStatus)
      modifies this`available
      ensures (status, View()) == Add(old(View()), d)
      ensures old(Valid()) ==> (Valid() <==> d !in removed || status != Added)
    {
      for i := 0 to |available|
        invariant available == old(available)
        invariant forall j :: 0 <= j < i ==> available[j].busid != d.busid
      {
        if available[i].busid == d.busid {
          return AlreadyBound;
        }
      }
      if d.busid in inUse {
        return InUse;
      }
      available := available + [d];
      assert available[|available| - 1] == d;
      return Added;
    }

    /** The search loop shared by detaching and importing. */
    method Find(b: Busid) returns (k: nat)
      ensures k == Position(available, b)
    {
      k := 0;
      while k < |available| && available[k].busid != b
        invariant k <= |available| && forall j :: 0 <= j < k ==> available[j].busid != b
      {
        k := k + 1;
      }
    }

    method DetachAvailable(b: Busid) returns (detached: Option<Device>)
      modifies this`available
      ensures old(Valid()) ==> Valid()
      ensures (detached, View()) == Detach(old(View()), b)
    {
      if Valid() { DetachKeeps(View(), b, removed); }
      var k := Find(b);
      if k == |available| {
        return None;
      }
      detached := Some(available[k]);
      available := available[..k] + available[k + 1..];
    }

    method TryMovingToUsing(b: Busid) returns (device: Option<Device>)
      modifies this`available, this`inUse
      ensures old(Valid()) ==> Valid()
      ensures (device, View()) == MoveToUsing(old(View()), b)
    {
      if Valid() { MoveKeeps(View(), b, removed); }
      var k := Find(b);
      if k == |available| {
        return None;
      }
      device := Some(available[k]);
      inUse := inUse[b := available[k]];
      available := available[..k] + available[k + 1..];
    }

    method ReleaseDevice(b: Busid) returns (reason: Option<ReleaseReason>)
      modifies this`available, this`inUse
      ensures old(Valid()) ==> Valid()
      ensures (reason, View()) == Release(old(View()), b, removed, running)
    {
      if Valid() { ReleaseKeeps(View(), b, removed, running); }
      if b !in inUse {
        return None;
      }
      if inUse[b] in removed {
        inUse := inUse - {b};
        return Some(DeviceRemoved);
      }
      available := available + [inUse[b]];
      inUse := inUse - {b};
      reason := Some(if running then ClientDisconnected else ServerStopped);
    }

    /** Second half of an unplug: flag the device if a session is using it. */
    method MarkIfUsing(b: Busid) returns (found: bool)
      modifies this`removed
      ensures old(Valid()) ==> Valid()
      ensures found == (b in inUse)
      ensures removed == if found then old(removed) + {inUse[b]} else old(removed)
    {
      found := b in inUse;
      if found {
        removed := removed + {inUse[b]};
      }
    }
  }
}
