/**
 How a client finds its physical address: from the HDMI port of a base device, with a fallback for a
 base device that does not report one, and a refresh once it does.
 */
module PhysicalAddresses {
  import opened CecTypes
  import opened Bus
  import opened BusRuns
  import opened DeviceMap

  type Port = n: int | 0 <= n < 256

  predicate IsPort(port: Port) {
    1 <= port <= 15
  }

  /** The child of the device at base that is connected to its HDMI port. */
  function FromPort(base: PhysicalAddress, port: Port): PhysicalAddress
    requires IsPort(port)
  {
    if base > MAX_PHYSICAL_ADDRESS then INVALID_PHYSICAL_ADDRESS
    else if base == 0 then 0x1000 * port
    else if base % 0x1000 == 0 then base + 0x100 * port
    else if base % 0x100 == 0 then base + 0x10 * port
    else if base % 0x10 == 0 then base + port
    else base
  }

  /** The address without its last nibble that is not zero: the device above. */
  function Above(p: PhysicalAddress): PhysicalAddress {
    if p % 0x10 != 0 then p - p % 0x10
    else if p % 0x100 != 0 then p - p % 0x100
    else if p % 0x1000 != 0 then p - p % 0x1000
    else 0
  }

  lemma AboveFirst(n: nat, port: Port)
    requires n < 0x10 && IsPort(port)
    ensures Above(0x1000 * n + 0x100 * port) == 0x1000 * n
  {
    var p := 0x1000 * n + 0x100 * port;
    assert p % 0x10 == 0 && p % 0x100 == 0;
    assert p % 0x1000 == 0x100 * port;
  }

  lemma AboveSecond(n: nat, port: Port)
    requires n < 0x100 && IsPort(port)
    ensures Above(0x100 * n + 0x10 * port) == 0x100 * n
  {
    var p := 0x100 * n + 0x10 * port;
    assert p % 0x10 == 0;
    assert p % 0x100 == 0x10 * port;
  }

  lemma AboveThird(n: nat, port: Port)
    requires n < 0x1000 && IsPort(port)
    ensures Above(0x10 * n + port) == 0x10 * n
  {
    assert (0x10 * n + port) % 0x10 == port;
  }

  /** The device at the port is right below the base, unless the base is on the lowest level: that keeps its address. */
  lemma FromPortIsBelow(base: PhysicalAddress, port: Port)
    requires IsPort(port) && base <= MAX_PHYSICAL_ADDRESS
    ensures FromPort(base, port) == base <==> base % 0x10 != 0
    ensures base % 0x10 == 0 ==> Above(FromPort(base, port)) == base
  {
    if base != 0 {
      if base % 0x1000 == 0 {
        AboveFirst(base / 0x1000, port);
      } else if base % 0x100 == 0 {
        AboveSecond(base / 0x100, port);
      } else if base % 0x10 == 0 {
        AboveThird(base / 0x10, port);
      }
    }
  }

  /** The nibble that is added is the port, on each level. The lowest level and "invalid" stay as they are. */
  lemma FromPortAdds(base: PhysicalAddress, port: Port)
    requires 1 <= port <= 15
    ensures var p := FromPort(base, port);
            && (base == 0 ==> p / 0x1000 == port && p % 0x1000 == 0)
            && (base != 0 && base % 0x1000 == 0 ==> p - base == 0x100 * port)
            && (base % 0x1000 != 0 && base % 0x100 == 0 ==> p - base == 0x10 * port)
            && (base % 0x100 != 0 && base % 0x10 == 0 ==> p - base == port)
            && (base % 0x10 != 0 ==> p == base)
  {
  }

  /** Two ports of one device are two addresses, as long as there is a level below it. */
  lemma PortsDiffer(base: PhysicalAddress, one: Port, other: Port)
    requires 1 <= one <= 15 && 1 <= other <= 15 && one != other
    ensures FromPort(base, one) != FromPort(base, other) <==> base % 0x10 == 0
  {
    FromPortAdds(base, one);
    FromPortAdds(base, other);
  }

  lemma FromPortIsValid(base: PhysicalAddress, port: Port)
    requires IsPort(port) && base <= MAX_PHYSICAL_ADDRESS
    ensures IsValidPhysicalAddress(FromPort(base, port)) <==>
            (base == 0 || base >= 0x1000) && !(base == 0xFFF0 && port == 15)
  {
    if base % 0x1000 == 0 {
      assert base == 0x1000 * (base / 0x1000);
    } else if base % 0x100 == 0 {
      assert base == 0x100 * (base / 0x100);
    } else if base % 0x10 == 0 {
      assert base == 0x10 * (base / 0x10);
    }
  }

  /** The part of a client and of its configuration that decides about its physical address. */
  datatype Setup = Setup(
    bus: State,
    owned: set<Address>,      // the logical addresses of the client
    client: bool,             // the client is initialised
    processor: bool,          // the processor is initialised
    base: Option<Address>,
    port: Port,
    physical: PhysicalAddress,
    autodetect: bool)

  /** What a client can derive from device d; nothing without a device. */
  function Derived(b: State, d: Option<Address>, port: Port): PhysicalAddress
    requires IsPort(port)
  {
    if d.Some? then FromPort(b.paths[d.value], port) else INVALID_PHYSICAL_ADDRESS
  }

  /** SetPhysicalAddress. */
  function AddressSet(s: Setup, p: PhysicalAddress): Setup {
    if s.physical == p then s
    else s.(physical := p, bus := Moved(s.bus, s.owned, p, s.client, s.processor))
  }

  function Fallback(p: PhysicalAddress, eeprom: PhysicalAddress): PhysicalAddress {
    if IsValidPhysicalAddress(p) then p
    else if IsValidPhysicalAddress(eeprom) then eeprom
    else DEFAULT_PHYSICAL_ADDRESS
  }

  /** SetHDMIPort, for a port from 1 to 15. */
  function PortSet(s: Setup, base: Option<Address>, port: Port, force: bool, eeprom: PhysicalAddress): Setup
    requires IsPort(port)
  {
    if s.base == base && s.port == port && IsValidPhysicalAddress(s.physical) then s
    else
      var s' := s.(base := base, port := port, autodetect := false);
      if !s.processor && !force then s'
      else AddressSet(s', Fallback(Derived(s.bus, base, port), eeprom))
  }

  /** RefreshPhysicalAddress, after device d reported its address. */
  function Refreshed(s: Setup, d: Address): Setup {
    if s.base != Some(d) || !IsPort(s.port) then s
    else if !IsValidPhysicalAddress(Derived(s.bus, s.base, s.port)) then s
    else AddressSet(s, Derived(s.bus, s.base, s.port))
  }

  /** Device d reports address p. */
  function Reported(s: Setup, d: Address, p: PhysicalAddress): Setup {
    s.(bus := PathSet(s.bus, d, p))
  }

  /** Every device of the client has the address that is configured. */
  ghost predicate Settled(s: Setup) {
    IsValidPhysicalAddress(s.physical) && forall a :: a in s.owned ==> s.bus.paths[a] == s.physical
  }

  lemma AddressSetFacts(s: Setup, p: PhysicalAddress)
    requires IsValidPhysicalAddress(p)
    ensures var t := AddressSet(s, p);
            && t.physical == p && t.owned == s.owned && t.base == s.base && t.port == s.port
            && (forall a: Address :: t.bus.paths[a] == if s.physical != p && a in s.owned then p else s.bus.paths[a])
            && (s.processor ==> t.bus.source == s.bus.source)
            && (InStep(s.bus) ==> InStep(t.bus))
            && (Settled(s) || s.physical != p ==> Settled(t))
  {
    MovedKeepsTheSource(s.bus, s.owned, p, s.client, s.processor);
  }

  /**
   Setting a port. Nothing happens when port and base are as before and the address is valid. Otherwise
   both are stored, but the address stays as long as the processor is not running, unless forced. If not,
   it is the derived one, or that in the adapter's memory, or 1000, whichever is valid first.
   */
  lemma PortSetChooses(s: Setup, base: Option<Address>, port: Port, force: bool, eeprom: PhysicalAddress)
    requires 1 <= port <= 15
    ensures var t := PortSet(s, base, port, force, eeprom);
            var derived := if base.Some? then FromPort(s.bus.paths[base.value], port) else 0xFFFF;
            if s.base == base && s.port == port && 0x1000 <= s.physical <= 0xFFFE then t == s
            else if !s.processor && !force then t == s.(base := base, port := port, autodetect := false)
            else
              && t == s.(base := base, port := port, autodetect := false, physical := t.physical, bus := t.bus)
              && t.physical == (if 0x1000 <= derived <= 0xFFFE then derived
                                else if 0x1000 <= eeprom <= 0xFFFE then eeprom else 0x1000)
  {
  }

  /** A refresh takes the derived address if the reporting device is the base, and does nothing else. */
  lemma RefreshChooses(s: Setup, d: Address)
    ensures var t := Refreshed(s, d);
            if s.base != Some(d) || s.port == 0 || s.port > 15 then t == s
            else
              var p := FromPort(s.bus.paths[d], s.port);
              && t == s.(physical := t.physical, bus := t.bus)
              && t.physical == (if 0x1000 <= p <= 0xFFFE then p else s.physical)
              && (forall a: Address :: t.bus.paths[a] ==
                    if a in s.owned && t.physical != s.physical then t.physical else s.bus.paths[a])
  {
    if s.base == Some(d) && IsPort(s.port) {
      var p := FromPort(s.bus.paths[d], s.port);
      if IsValidPhysicalAddress(p) {
        AddressSetFacts(s, p);
      }
    }
  }

  /** Setting a port on an initialised processor leaves a valid address that all devices have. */
  lemma PortSetSettles(s: Setup, base: Option<Address>, port: Port, force: bool, eeprom: PhysicalAddress)
    requires IsPort(port) && (s.processor || force) && (IsValidPhysicalAddress(s.physical) ==> Settled(s))
    ensures var t := PortSet(s, base, port, force, eeprom);
            && t.base == base && t.port == port && Settled(t)
            && (s.processor ==> t.bus.source == s.bus.source)
            && (forall a: Address :: a !in s.owned ==> t.bus.paths[a] == s.bus.paths[a])
            && (t == s || t.physical == Fallback(Derived(s.bus, base, port), eeprom))
  {
    AddressSetFacts(s.(base := base, port := port, autodetect := false), Fallback(Derived(s.bus, base, port), eeprom));
  }

  /**
   Whatever address a fallback chose: once the base device reports an address from which one can be
   derived, a refresh gets the client there, and all of its devices with it. The source stays, and
   another refresh changes nothing. The base device must not be one of the client's own.
   */
  lemma RefreshCorrectsAnyFallback(s: Setup, base: Address, port: Port, force: bool,
                                   eeprom: PhysicalAddress, p: PhysicalAddress)
    requires IsPort(port) && (s.processor || force) && (IsValidPhysicalAddress(s.physical) ==> Settled(s))
    requires base !in s.owned
    requires IsValidPhysicalAddress(FromPort(if p > 0 then p else s.bus.paths[base], port))
    ensures var t := Refreshed(Reported(PortSet(s, Some(base), port, force, eeprom), base, p), base);
            && t.physical == FromPort(if p > 0 then p else s.bus.paths[base], port) && Settled(t)
            && (s.processor ==> t.bus.source == s.bus.source)
            && Refreshed(t, base) == t
  {
    PortSetSettles(s, Some(base), port, force, eeprom);
    var t := Reported(PortSet(s, Some(base), port, force, eeprom), base, p);
    AddressSetFacts(t, FromPort(t.bus.paths[base], port));
  }

  /**
   A second refresh changes nothing exactly when the first changed nothing, or did not move the base
   device, or moved it to an address from which nothing further can be derived.
   */
  lemma RefreshTwice(s: Setup, d: Address)
    requires s.base == Some(d) && IsPort(s.port) && IsValidPhysicalAddress(Derived(s.bus, s.base, s.port))
    ensures var p := Derived(s.bus, s.base, s.port);
            Refreshed(Refreshed(s, d), d) == Refreshed(s, d) <==>
            d !in s.owned || s.physical == p || p % 0x10 != 0 || (p == 0xFFF0 && s.port == 15)
  {
    var p := Derived(s.bus, s.base, s.port);
    AddressSetFacts(s, p);
    FromPortIsBelow(p, s.port);
    FromPortIsValid(p, s.port);
  }

  /**
   A client that is a TV, with itself as base device on port 1: setting the port gives it 1000, and each
   refresh moves it one level down.
   */
  lemma OwnBaseDrifts(b: State, eeprom: PhysicalAddress)
    requires b.paths[TV] == 0
    ensures var s := PortSet(Setup(b, {TV}, true, true, None, 0, 0, true), Some(TV), 1, false, eeprom);
            && s.physical == 0x1000 && Settled(s)
            && Refreshed(s, TV).physical == 0x1100
            && Refreshed(Refreshed(s, TV), TV).physical == 0x1110
  {
    var s0 := Setup(b, {TV}, true, true, Some(TV), 1, 0, false);
    AddressSetFacts(s0, 0x1000);
    var s := AddressSet(s0, 0x1000);
    AddressSetFacts(s, 0x1100);
    AddressSetFacts(AddressSet(s, 0x1100), 0x1110);
  }

  // ---------- the methods ----------

  class PortClient {
    const devices: Devices
    var owned: set<Address>
    var client: bool
    var processor: bool
    var base: Option<Address>
    var port: Port
    var physical: PhysicalAddress
    var autodetect: bool

    ghost predicate Valid() reads this, devices {
      devices.Valid()
    }

    ghost function Abs(): Setup reads this, devices {
      Setup(devices.Abs(), owned, client, processor, base, port, physical, autodetect)
    }

    constructor (devices: Devices, owned: set<Address>)
      requires devices.Valid()
      ensures Valid() && this.devices == devices
      ensures Abs() == Setup(devices.Abs(), owned, false, false, None, 0, 0, false)
    {
      this.devices, this.owned, client, processor := devices, owned, false, false;
      base, port, physical, autodetect := None, 0, 0, false;
    }

    method GetPhysicalAddressFromPort(d: Option<Address>, port: Port) returns (p: PhysicalAddress)
      requires IsPort(port)
      ensures p == Derived(devices.Abs(), d, port)
    {
      p := INVALID_PHYSICAL_ADDRESS;
      if d.Some? {
        p := devices.paths[d.value];
      }
      if p > MAX_PHYSICAL_ADDRESS {
        return INVALID_PHYSICAL_ADDRESS;
      }
      if p == 0 {
        p := p + 0x1000 * port;
      } else if p % 0x1000 == 0 {
        p := p + 0x100 * port;
      } else if p % 0x100 == 0 {
        p := p + 0x10 * port;
      } else if p % 0x10 == 0 {
        p := p + port;
      }
    }

    method SetPhysicalAddress(p: PhysicalAddress) returns (ok: bool)
      requires Valid()
      modifies this`physical, devices
      ensures Valid() && Abs() == AddressSet(old(Abs()), p) && ok
    {
      if physical == p {
        return true;
      }
      physical := p;
      var _ := devices.SetDevicePhysicalAddress(owned, p, client, processor);
      return true;
    }

    method SetHDMIPort(d: Option<Address>, newPort: Port, force: bool, eeprom: PhysicalAddress) returns (ok: bool)
      requires Valid()
      modifies this, devices
      ensures Valid() && ok == IsPort(newPort)
      ensures Abs() == if ok then PortSet(old(Abs()), d, newPort, force, eeprom) else old(Abs())
    {
      if newPort < 1 || newPort > 15 {
        return false;
      }
      if base == d && port == newPort && IsValidPhysicalAddress(physical) && physical > 0 {
        return true;
      }
      base, port, autodetect := d, newPort, false;
      if !processor && !force {
        return true;
      }
      var p := GetPhysicalAddressFromPort(d, newPort);
      if !IsValidPhysicalAddress(p) {
        p := if IsValidPhysicalAddress(eeprom) then eeprom else DEFAULT_PHYSICAL_ADDRESS;
      }
      ok := SetPhysicalAddress(p);
    }

    method RefreshPhysicalAddress(d: Address)
      requires Valid()
      modifies this, devices
      ensures Valid() && Abs() == Refreshed(old(Abs()), d)
    {
      if base != Some(d) || port < 1 || port > 15 {
        return;
      }
      var p := GetPhysicalAddressFromPort(Some(d), port);
      if !IsValidPhysicalAddress(p) || p == physical {
        return;
      }
      var _ := SetPhysicalAddress(p);
    }
  }
}
