/** The processor and its clients as objects. Their methods compute the functions of Allocation and Registration. */
module ClientRegistry {
  import opened CecTypes
  import opened Bus
  import opened Allocation
  import opened Registration
  import opened DeviceMap

  lemma FirstFitUnrolls(b: State, acks: set<Address>, a: Address, rest: seq<Address>)
    ensures FirstFit(b, acks, [a] + rest) ==
            if Available(b, a, a in acks) then Trial(Tried(b, a, a in acks), Some(a))
            else FirstFit(Tried(b, a, a in acks), acks, rest)
  {
    assert ([a] + rest)[1..] == rest;
  }

  lemma SupportedSnoc(slots: Slots, panasonic: bool, i: nat)
    requires i < 5
    ensures Supported(slots[..i + 1], panasonic) ==
            var front := Supported(slots[..i], panasonic);
            if slots[i] == Reserved || Replacement(panasonic, slots[i]) in front then front
            else front + [Replacement(panasonic, slots[i])]
  {
    assert slots[..i + 1][..i] == slots[..i];
  }

  lemma SlotFacts(types: seq<DeviceType>, i: nat)
    requires |types| <= 5 && Reserved !in types && i < 5
    ensures SlotsOf(types)[i] == if i < |types| then types[i] else Reserved
    ensures SlotsOf(types)[i] == Reserved <==> |types| <= i
  {
  }

  lemma BelowStep(s: set<Address>, i: Address)
    ensures Below(s, i + 1) == if i in s then Below(s, i) + {i} else Below(s, i)
  {
  }

  lemma BelowAll(s: set<Address>)
    ensures Below(s, 0) == {} && Below(s, 16) == s
  {
  }

  lemma PlacedStep(b: State, members: set<Address>, p: PhysicalAddress, i: Address)
    ensures Placed(b, Below(members, i + 1), p) ==
            if i in members && IsValidPhysicalAddress(p) then PathSet(Placed(b, Below(members, i), p), i, p)
            else Placed(b, Below(members, i), p)
  {
    BelowStep(members, i);
    if i in members {
      assert PathsMoved(b.paths, Below(members, i + 1), p) == PathsMoved(b.paths, Below(members, i), p)[i := p];
    }
  }

  lemma ClaimedStep(owners: map<Address, nat>, members: set<Address>, id: nat, i: Address)
    ensures Claimed(owners, Below(members, i + 1), id) ==
            if i in members then Claimed(owners, Below(members, i), id)[i := id]
            else Claimed(owners, Below(members, i), id)
  {
    BelowStep(members, i);
  }

  lemma NothingPlaced(b: State, owners: map<Address, nat>, p: PhysicalAddress, id: nat)
    ensures Placed(b, {}, p) == b && Claimed(owners, {}, id) == owners
  {
    assert PathsMoved(b.paths, {}, p) == b.paths;
  }

  class CecClient {
    const id: nat
    var monitorOnly: bool
    var types: Slots
    var addresses: Addresses
    var physical: PhysicalAddress
    var registered: bool
    var initialised: bool

    ghost function Abs(): Client reads this {
      Client(monitorOnly, types, addresses, physical, registered, initialised)
    }

    constructor (id: nat, monitorOnly: bool, types: Slots, physical: PhysicalAddress)
      ensures this.id == id && Abs() == Client(monitorOnly, types, NO_ADDRESSES, physical, false, false)
    {
      this.id, this.monitorOnly, this.types, this.physical := id, monitorOnly, types, physical;
      addresses, registered, initialised := NO_ADDRESSES, false, false;
    }

    /** cec_device_type_list::Add: the first reserved slot takes the type, if there is one. */
    static method Add(slots: Slots, t: DeviceType) returns (r: Slots)
      ensures forall n: nat :: n < 5 && (forall i :: 0 <= i < n ==> slots[i] != Reserved) && slots[n] == Reserved ==>
                r == slots[n := t]
      ensures Reserved !in slots ==> r == slots
    {
      var i := 0;
      while i < 5
        invariant 0 <= i <= 5
        invariant forall j :: 0 <= j < i ==> slots[j] != Reserved
      {
        if slots[i] == Reserved {
          return slots[i := t];
        }
        i := i + 1;
      }
      return slots;
    }

    method SetSupportedDeviceTypes(panasonic: bool)
      modifies this`types
      ensures types == SlotsOf(Supported(old(types), panasonic))
    {
      var list := NO_TYPES;
      var i := 0;
      while i < 5
        invariant 0 <= i <= 5 && types == old(types)
        invariant list == SlotsOf(Supported(types[..i], panasonic))
      {
        SupportedTypes(types[..i], panasonic);
        SupportedTypes(types[..i + 1], panasonic);
        SupportedSnoc(types, panasonic, i);
        if types[i] != Reserved {
          var t := Replacement(panasonic, types[i]);
          ghost var front := Supported(types[..i], panasonic);
          assert t in list <==> t in front;
          if t !in list {
            assert list[|front|] == Reserved;
            list := Add(list, t);
          }
        }
        i := i + 1;
      }
      assert types[..5] == types;
      types := list;
    }

    method AllocateLogicalAddressRecordingDevice(devices: Devices, acks: set<Address>) returns (r: Option<Address>)
      requires devices.Valid()
      modifies devices
      ensures devices.Valid() && Trial(devices.Abs(), r) == FirstFit(old(devices.Abs()), acks, [1, 2, 9])
    {
      FirstFitUnrolls(devices.Abs(), acks, RECORDING_DEVICE1, [RECORDING_DEVICE2, RECORDING_DEVICE3]);
      var ok := devices.TryLogicalAddress(RECORDING_DEVICE1, RECORDING_DEVICE1 in acks);
      if ok {
        return Some(RECORDING_DEVICE1);
      }
      FirstFitUnrolls(devices.Abs(), acks, RECORDING_DEVICE2, [RECORDING_DEVICE3]);
      ok := devices.TryLogicalAddress(RECORDING_DEVICE2, RECORDING_DEVICE2 in acks);
      if ok {
        return Some(RECORDING_DEVICE2);
      }
      FirstFitUnrolls(devices.Abs(), acks, RECORDING_DEVICE3, []);
      ok := devices.TryLogicalAddress(RECORDING_DEVICE3, RECORDING_DEVICE3 in acks);
      if ok {
        return Some(RECORDING_DEVICE3);
      }
      return None;
    }

    method AllocateLogicalAddressTuner(devices: Devices, acks: set<Address>) returns (r: Option<Address>)
      requires devices.Valid()
      modifies devices
      ensures devices.Valid() && Trial(devices.Abs(), r) == FirstFit(old(devices.Abs()), acks, [3, 6, 7, 10])
    {
      FirstFitUnrolls(devices.Abs(), acks, TUNER1, [TUNER2, TUNER3, TUNER4]);
      var ok := devices.TryLogicalAddress(TUNER1, TUNER1 in acks);
      if ok {
        return Some(TUNER1);
      }
      FirstFitUnrolls(devices.Abs(), acks, TUNER2, [TUNER3, TUNER4]);
      ok := devices.TryLogicalAddress(TUNER2, TUNER2 in acks);
      if ok {
        return Some(TUNER2);
      }
      FirstFitUnrolls(devices.Abs(), acks, TUNER3, [TUNER4]);
      ok := devices.TryLogicalAddress(TUNER3, TUNER3 in acks);
      if ok {
        return Some(TUNER3);
      }
      FirstFitUnrolls(devices.Abs(), acks, TUNER4, []);
      ok := devices.TryLogicalAddress(TUNER4, TUNER4 in acks);
      if ok {
        return Some(TUNER4);
      }
      return None;
    }

    method AllocateLogicalAddressPlaybackDevice(devices: Devices, acks: set<Address>) returns (r: Option<Address>)
      requires devices.Valid()
      modifies devices
      ensures devices.Valid() && Trial(devices.Abs(), r) == FirstFit(old(devices.Abs()), acks, [4, 8, 11])
    {
      FirstFitUnrolls(devices.Abs(), acks, PLAYBACK_DEVICE1, [PLAYBACK_DEVICE2, PLAYBACK_DEVICE3]);
      var ok := devices.TryLogicalAddress(PLAYBACK_DEVICE1, PLAYBACK_DEVICE1 in acks);
      if ok {
        return Some(PLAYBACK_DEVICE1);
      }
      FirstFitUnrolls(devices.Abs(), acks, PLAYBACK_DEVICE2, [PLAYBACK_DEVICE3]);
      ok := devices.TryLogicalAddress(PLAYBACK_DEVICE2, PLAYBACK_DEVICE2 in acks);
      if ok {
        return Some(PLAYBACK_DEVICE2);
      }
      FirstFitUnrolls(devices.Abs(), acks, PLAYBACK_DEVICE3, []);
      ok := devices.TryLogicalAddress(PLAYBACK_DEVICE3, PLAYBACK_DEVICE3 in acks);
      if ok {
        return Some(PLAYBACK_DEVICE3);
      }
      return None;
    }

    method AllocateLogicalAddressAudioSystem(devices: Devices, acks: set<Address>) returns (r: Option<Address>)
      requires devices.Valid()
      modifies devices
      ensures devices.Valid() && Trial(devices.Abs(), r) == FirstFit(old(devices.Abs()), acks, [5])
    {
      FirstFitUnrolls(devices.Abs(), acks, AUDIO_SYSTEM, []);
      var ok := devices.TryLogicalAddress(AUDIO_SYSTEM, AUDIO_SYSTEM in acks);
      return if ok then Some(AUDIO_SYSTEM) else None;
    }

    method AllocateForType(devices: Devices, acks: set<Address>, t: DeviceType) returns (r: Option<Address>)
      requires devices.Valid()
      modifies devices
      ensures devices.Valid() && Trial(devices.Abs(), r) == TypeTrial(old(devices.Abs()), acks, t)
    {
      match t
      case TvType => r := Some(TV);
      case RecordingDevice => r := AllocateLogicalAddressRecordingDevice(devices, acks);
      case Tuner => r := AllocateLogicalAddressTuner(devices, acks);
      case PlaybackDevice => r := AllocateLogicalAddressPlaybackDevice(devices, acks);
      case AudioSystem => r := AllocateLogicalAddressAudioSystem(devices, acks);
      case Reserved => r := None;
    }

    method AllocateLogicalAddresses(devices: Devices, panasonic: bool, acks: set<Address>) returns (ok: bool)
      requires devices.Valid()
      modifies this`types, this`addresses, devices
      ensures devices.Valid()
      ensures var list := Supported(old(types), panasonic);
              var r := Allocate(old(devices.Abs()), acks, NO_ADDRESSES, list);
              && types == SlotsOf(list) && devices.Abs() == r.bus && addresses == r.list
              && ok == (list != [] && r.ok)
    {
      addresses := NO_ADDRESSES;
      ghost var list := Supported(types, panasonic);
      ghost var all := Allocate(devices.Abs(), acks, NO_ADDRESSES, list);
      SupportedTypes(types, panasonic);
      SetSupportedDeviceTypes(panasonic);
      if types == NO_TYPES {
        SlotFacts(list, 0);
        return false;
      }
      assert list != [];
      var i := 0;
      while i < 5
        invariant 0 <= i <= 5 && devices.Valid() && types == SlotsOf(list)
        invariant Allocate(devices.Abs(), acks, addresses, if i < |list| then list[i..] else []) == all
      {
        SlotFacts(list, i);
        if types[i] != Reserved {
          assert list[i..][1..] == list[i + 1..];
          var address := AllocateForType(devices, acks, types[i]);
          if address.None? {
            return false;
          }
          addresses := WithAddress(addresses, address.value);
        }
        i := i + 1;
      }
      return true;
    }

    /** The part that decides about its result. */
    method OnRegister() returns (ok: bool)
      modifies this`initialised
      ensures forall h: Hub :: Outcome(h, Abs(), ok) == Registration.OnRegister(h, old(Abs()))
      ensures ok == (old(initialised) || addresses.members != {}) && initialised == ok
    {
      if initialised {
        return true;
      }
      if addresses.members == {} {
        return false;
      }
      initialised := true;
      return true;
    }

    method OnUnregister()
      modifies this`registered, this`initialised
      ensures Abs() == old(Abs()).(registered := false, initialised := false)
    {
      registered, initialised := false, false;
    }
  }

  class Processor {
    const devices: Devices
    var owners: map<Address, nat>
    var mask: Addresses

    ghost predicate Valid() reads this, devices {
      devices.Valid()
    }

    ghost function Abs(): Hub reads this, devices {
      Hub(devices.Abs(), owners, mask)
    }

    constructor (devices: Devices)
      requires devices.Valid()
      ensures Valid() && this.devices == devices && Abs() == Hub(devices.Abs(), map[], NO_ADDRESSES)
    {
      this.devices, owners, mask := devices, map[], NO_ADDRESSES;
    }

    /** Goes through the keys in ascending order: the smallest becomes the primary address. */
    method GetLogicalAddresses() returns (r: Addresses)
      ensures r == MaskOf(owners.Keys)
    {
      r := NO_ADDRESSES;
      BelowAll(owners.Keys);
      var i: int := 0;
      while i < 16
        invariant 0 <= i <= 16
        invariant r.members == Below(owners.Keys, i)
        invariant if r.primary == UNREGISTERED then Smallest(owners.Keys, 0) == Smallest(owners.Keys, i)
                  else r.primary == Smallest(owners.Keys, 0)
      {
        BelowStep(owners.Keys, i);
        if i in owners {
          r := WithAddress(r, i);
        }
        i := i + 1;
      }
    }

    /** The adapter's answer is an argument. */
    method SetLogicalAddresses(addresses: Addresses, accepts: bool) returns (ok: bool)
      modifies this`mask
      ensures mask == (if accepts then addresses else old(mask)) && ok == accepts
    {
      if accepts {
        mask := addresses;
      }
      return accepts;
    }

    method UnregisterClient(c: CecClient, accepts: bool) returns (ok: bool)
      requires Valid()
      modifies this, devices, c
      ensures Valid() && Outcome(Abs(), c.Abs(), ok) == Unregistered(old(Abs()), old(c.Abs()), accepts)
    {
      c.OnUnregister();
      ghost var b, members := devices.Abs(), c.addresses.members;
      BelowAll(members);
      var i: int := 0;
      while i < 16
        invariant 0 <= i <= 16 && devices.Valid() && mask == old(mask)
        invariant c.Abs() == old(c.Abs()).(registered := false, initialised := false)
        invariant owners == old(owners) - Below(members, i)
        invariant ResetAll(devices.Abs(), members, i) == ResetAll(b, members, 0)
      {
        BelowStep(members, i);
        if i in c.addresses.members {
          owners := owners - {i};
          devices.ResetDeviceStatus(i, true);
        }
        i := i + 1;
      }
      var addresses := GetLogicalAddresses();
      ok := SetLogicalAddresses(addresses, accepts);
    }

    method AllocateLogicalAddresses(c: CecClient, env: Env) returns (ok: bool)
      requires Valid()
      modifies this, devices, c
      ensures Valid() && Outcome(Abs(), c.Abs(), ok) == WithAddresses(old(Abs()), old(c.Abs()), c.id, env)
    {
      c.registered := false;
      EraseOwners(c.addresses.members);
      ok := c.AllocateLogicalAddresses(devices, env.panasonic, env.acks);
      if ok {
        ClaimOwners(c);
        var addresses := GetLogicalAddresses();
        var _ := SetLogicalAddresses(addresses, env.accepts);
      }
    }

    method EraseOwners(members: set<Address>)
      modifies this`owners
      ensures owners == old(owners) - members
    {
      BelowAll(members);
      var i: int := 0;
      while i < 16
        invariant 0 <= i <= 16
        invariant owners == old(owners) - Below(members, i)
      {
        BelowStep(members, i);
        if i in members {
          owners := owners - {i};
        }
        i := i + 1;
      }
    }

    method ClaimOwner(a: Address, c: CecClient)
      requires Valid()
      modifies this`owners, devices
      ensures Valid() && owners == old(owners)[a := c.id]
      ensures devices.Abs() == if IsValidPhysicalAddress(c.physical) then PathSet(old(devices.Abs()), a, c.physical)
                               else old(devices.Abs())
    {
      if IsValidPhysicalAddress(c.physical) {
        devices.SetPhysicalAddress(a, c.physical);
      }
      owners := owners - {a};
      owners := owners[a := c.id];
    }

    method ClaimOwners(c: CecClient)
      requires Valid()
      modifies this`owners, devices
      ensures Valid() && owners == Claimed(old(owners), c.addresses.members, c.id)
      ensures devices.Abs() == Placed(old(devices.Abs()), c.addresses.members, c.physical)
    {
      ghost var b, members := devices.Abs(), c.addresses.members;
      BelowAll(members);
      NothingPlaced(b, owners, c.physical, c.id);
      var i: int := 0;
      while i < 16
        invariant 0 <= i <= 16 && devices.Valid()
        invariant owners == Claimed(old(owners), Below(members, i), c.id)
        invariant devices.Abs() == Placed(b, Below(members, i), c.physical)
      {
        PlacedStep(b, members, c.physical, i);
        ClaimedStep(old(owners), members, c.id, i);
        if i in c.addresses.members {
          ClaimOwner(i, c);
        }
        i := i + 1;
      }
    }

    method RegisterClient(c: CecClient, env: Env) returns (ok: bool)
      requires Valid()
      modifies this, devices, c
      ensures Valid() && Outcome(Abs(), c.Abs(), ok) == Registered(old(Abs()), old(c.Abs()), c.id, env)
    {
      if c.monitorOnly {
        return true;
      }
      if !env.initialised {
        return false;
      }
      if c.registered {
        var _ := UnregisterClient(c, env.accepts);
      }
      if !env.sourceSupported {
        return false;
      }
      var previousMask := GetLogicalAddresses();
      c.initialised := false;
      ok := AllocateLogicalAddresses(c, env);
      if !ok {
        var _ := SetLogicalAddresses(previousMask, env.accepts);
        return false;
      }
      c.registered := true;
      ok := c.OnRegister();
    }
  }
}
