/**
 The routing state of the sixteen devices on the bus, as one value.

 The active source is at most one address here. DeviceMap keeps sixteen independent flags, one
 per device, as the source does, and proves that its methods compute the functions below. The
 functions are closed forms: none of them calls back into another the way the vendor handler
 of the TV does.
 */
module Bus {
  import opened CecTypes

  datatype PowerStatus = On | Standby | StandbyToOn | OnToStandby | UnknownPower

  datatype DeviceStatus = UnknownStatus | Present | NotPresent | Handled

  /** The command handler of the TV: only a Samsung from 2016 on, or of unknown year, mirrors. */
  datatype TvHandler = Plain | Samsung(modelYear: nat)

  /** One SetActiveSource call to the adapter. */
  datatype Told = Told(value: bool, unregistered: bool)

  type Powers = s: seq<PowerStatus> | |s| == 16 witness seq(16, _ => UnknownPower)
  type Statuses = s: seq<DeviceStatus> | |s| == 16 witness seq(16, _ => UnknownStatus)
  type Flags = s: seq<bool> | |s| == 16 witness seq(16, _ => false)
  type Paths = s: seq<PhysicalAddress> | |s| == 16 witness seq(16, _ => INVALID_PHYSICAL_ADDRESS)

  const NO_FLAGS: Flags := [false, false, false, false, false, false, false, false,
                            false, false, false, false, false, false, false, false]

  datatype State = State(
    source: Option<Address>,   // the device that is marked as active source
    power: Powers,
    status: Statuses,
    paths: Paths,              // physical addresses
    sent: Flags,               // "active source sent"
    told: seq<Told>,           // what the adapter was told, oldest first
    tvHandler: TvHandler,
    switchAllowed: bool)       // whether the base handler may switch sources

  /** Before anything was heard or told. Only the TV has a physical address of its own. */
  function Initial(handler: TvHandler, allowed: bool): State {
    State(None, seq(16, _ => UnknownPower), seq(16, _ => UnknownStatus),
          seq(16, i => if i == TV then 0 else INVALID_PHYSICAL_ADDRESS), NO_FLAGS, [], handler, allowed)
  }

  predicate Mirrors(h: TvHandler) {
    h.Samsung? && (h.modelYear == 0 || h.modelYear >= 2016)
  }

  predicate PoweredUp(p: PowerStatus) {
    p == On || p == StandbyToOn
  }

  predicate PoweredDown(p: PowerStatus) {
    p == Standby || p == OnToStandby
  }

  /** The active source, if it is a device that libCEC handles. */
  function HandledSource(b: State): Option<Address> {
    if b.source.Some? && b.status[b.source.value] == Handled then b.source else None
  }

  /** TransmitActiveSource: what it records on the device. */
  function Transmitted(b: State, d: Address): State {
    if IsValidPhysicalAddress(b.paths[d]) && PoweredUp(b.power[d]) && b.source == Some(d)
    then b.(sent := b.sent[d := true])
    else b
  }

  /**
   What is left of the base handler's ActivateSource when the device is on and the TV is up, as they are
   after MarkAsActiveSource: see DeviceMap.HandlerRunIs.
   */
  function HandlerActivated(b: State, d: Address): State {
    if b.switchAllowed && HandledSource(b) == Some(d) then Transmitted(b, d) else b
  }

  /** OnPowerStatusChanged: a mirroring TV keeps the source in step with itself. */
  function Notified(b: State, d: Address, p: PowerStatus): State {
    match HandledSource(b)
    case None => b
    case Some(a) =>
      if d != TV || !Mirrors(b.tvHandler) then b
      else if PoweredDown(p) then b.(power := b.power[a := Standby])
      else if PoweredUp(p) then HandlerActivated(b.(power := b.power[a := On]), a)
      else b
  }

  /** SetPowerStatus. */
  function PowerChanged(b: State, d: Address, p: PowerStatus): State {
    if b.power[d] == p then b
    else Notified(b.(power := b.power[d := p], sent := if d == TV then NO_FLAGS else b.sent), d, p)
  }

  /** PowerOn on the TV, once "image view on" was sent: unlike OnImageViewOnSent it notifies. */
  function TvPoweredOn(b: State): State {
    if b.power[TV] == On then b else PowerChanged(b, TV, StandbyToOn)
  }

  /**
   The base handler's ActivateSource, run by d. It powers the TV on if that is present, and woken says
   whether this is sent. A retry leaves the power status of d alone.
   */
  function HandlerRun(b: State, d: Address, retry: bool, woken: bool): State {
    if HandledSource(b) != Some(d) then b
    else
      var b1 := if retry then b else PowerChanged(b, d, On);
      var b2 := if woken && b1.status[TV] == Present then TvPoweredOn(b1) else b1;
      if b2.switchAllowed then Transmitted(b2, d) else b2
  }

  /** OnImageViewOnSent, on the TV: it notifies nobody. */
  function TvWoken(power: Powers): Powers {
    if PoweredUp(power[TV]) then power else power[TV := StandbyToOn]
  }

  /** What MarkAsActiveSource tells the adapter: first about the device that loses, then about d. */
  function Handover(b: State, d: Address): seq<Told> {
    if b.source == Some(d) then []
    else (if HandledSource(b).Some? then [Told(false, false)] else [])
         + (if b.status[d] == Handled then [Told(true, false)] else [])
  }

  /** MarkAsActiveSource, once the power status is set. */
  function TookOver(b: State, d: Address): State {
    b.(power := TvWoken(b.power), source := Some(d), told := b.told + Handover(b, d))
  }

  /** MarkAsActiveSource. */
  function Marked(b: State, d: Address): State {
    TookOver(PowerChanged(b, d, On), d)
  }

  /** MarkAsInactiveSource. */
  function Unmarked(b: State, d: Address, unregistered: bool): State {
    if b.source != Some(d) then b
    else b.(source := None,
            told := b.told + if b.status[d] == Handled then [Told(false, unregistered)] else [])
  }

  /** ActivateSource: at once, or scheduled for later. */
  function Activated(b: State, d: Address, delay: nat): State {
    if delay == 0 then HandlerActivated(Marked(b, d), d) else Marked(b, d)
  }

  /** ResetDeviceStatus. */
  function Reset(b: State, d: Address, unregistered: bool): State {
    var b' := Unmarked(PowerChanged(b, d, UnknownPower), d, unregistered);
    b'.(status := b'.status[d := UnknownStatus])
  }

  /** SetDeviceStatus. */
  function StatusSet(b: State, d: Address, status: DeviceStatus): State {
    if d == UNREGISTERED then b
    else match status
      case Handled =>
        var b' := Unmarked(PowerChanged(b, d, On), d, false);
        b'.(status := b'.status[d := Handled])
      case Present => b.(status := b.status[d := Present])
      case NotPresent =>
        if b.status[d] == NotPresent then b
        else var b' := Reset(b, d, true); b'.(status := b'.status[d := NotPresent])
      case UnknownStatus => Reset(b, d, false)
  }

  /** TransmitPoll to d with status update, given whether d acknowledges. */
  function Polled(b: State, d: Address, acked: bool): State {
    if b.status[d] == Handled then b else StatusSet(b, d, if acked then Present else NotPresent)
  }

  /** Whether GetStatus polls the device. */
  predicate NeedsPoll(b: State, d: Address, force: bool, suppress: bool, samsungTv: bool) {
    && d != UNREGISTERED && !suppress && b.status[d] != Handled && (!samsungTv || d != TV)
    && (force || b.status[d] == UnknownStatus || (b.status[d] == NotPresent && d == TV))
  }

  /** The effect of HandleCommand on the status of the initiator. */
  function CommandHandled(b: State, d: Address): State {
    if d == UNREGISTERED || b.status[d] == Handled then b
    else b.(status := b.status[d := Present])
  }

  /** CCECProcessor::TryLogicalAddress: whether the address is now ours. */
  predicate Available(b: State, d: Address, acked: bool) {
    b.status[d] != Present && b.status[d] != Handled && !acked
  }

  function Tried(b: State, d: Address, acked: bool): State {
    if b.status[d] == Present || b.status[d] == Handled then b
    else StatusSet(b, d, if acked then Present else Handled)
  }

  /** GetDeviceByPhysicalAddress, from address i on. */
  function FirstAt(paths: Paths, p: PhysicalAddress, i: nat): Option<Address>
    requires i <= 16
    decreases 16 - i
  {
    if i == 16 then None else if paths[i] == p then Some(i) else FirstAt(paths, p, i + 1)
  }

  /** SetStreamPath, received by d. */
  function Streamed(b: State, d: Address, newPath: PhysicalAddress, oldPath: PhysicalAddress): State {
    var b' := if newPath != INVALID_PHYSICAL_ADDRESS then PowerChanged(b, d, On) else b;
    if !IsValidPhysicalAddress(newPath) then b'
    else match FirstAt(b'.paths, newPath, 0)
      case Some(to) =>
        var m := Marked(b', to);
        if m.status[to] == Handled then Transmitted(m, to) else m
      case None =>
        match FirstAt(b'.paths, oldPath, 0)
        case Some(from) => Unmarked(b', from, false)
        case None => b'
  }

  /** SetActiveRoute, received by d. */
  function Routed(b: State, d: Address, route: PhysicalAddress): State {
    var b' := PowerChanged(b, d, On);
    match FirstAt(b'.paths, route, 0)
    case Some(to) =>
      if b'.status[to] == Handled && (!b'.sent[d] || b'.source != Some(to))
      then Activated(b', to, 0)
      else b'
    case None => b'
  }

  /** CCECBusDevice::SetPhysicalAddress: zero is never stored. */
  function PathSet(b: State, d: Address, p: PhysicalAddress): State {
    if p > 0 then b.(paths := b.paths[d := p]) else b
  }

  /** The physical addresses after every owned device moved to p. */
  function PathsMoved(paths: Paths, owned: set<Address>, p: PhysicalAddress): Paths {
    seq(16, i requires 0 <= i < 16 => if i in owned then p else paths[i])
  }

  /** Whether the active source is one of the owned devices. */
  predicate OwnsSource(b: State, owned: set<Address>) {
    b.source.Some? && b.source.value in owned
  }

  /** The loop of SetDevicePhysicalAddress. Only an initialised client takes its source down first. */
  function Relocated(b: State, owned: set<Address>, p: PhysicalAddress, client: bool): State {
    (if client && OwnsSource(b, owned) then Unmarked(b, b.source.value, false) else b)
    .(paths := PathsMoved(b.paths, owned, p))
  }

  /** CCECClient::SetDevicePhysicalAddress, given whether the client and the processor are initialised. */
  function Moved(b: State, owned: set<Address>, p: PhysicalAddress, client: bool, processor: bool): State {
    if !IsValidPhysicalAddress(p) then b
    else if OwnsSource(b, owned) && client && processor then
      Activated(Relocated(b, owned, p, client), b.source.value, 0)
    else Relocated(b, owned, p, client)
  }
}
