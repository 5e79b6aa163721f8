/**
 The device map with one active-source flag per device, as the source keeps it.

 Setting a power status notifies the handler of the device. The handler of a Samsung TV then
 activates the current source again, which sets power statuses again. Every method computes the
 closed form of the same step in module Bus, and keeps at most one flag set.
 */
module DeviceMap {
  import opened CecTypes
  import opened Bus

  predicate AtMostOne(active: Flags) {
    forall i, j :: 0 <= i < j < 16 ==> !(active[i] && active[j])
  }

  ghost function SourceOf(active: Flags): Option<Address> {
    if a: Address :| active[a] then Some(a) else None
  }

  /** With at most one flag set, the flags and the source say the same. */
  lemma SourceOfIs(active: Flags, s: Option<Address>)
    requires AtMostOne(active)
    requires forall i: Address :: active[i] <==> s == Some(i)
    ensures SourceOf(active) == s
  {
    if s.Some? {
      assert active[s.value];
    }
  }

  lemma ActiveIs(active: Flags)
    requires AtMostOne(active)
    ensures forall i: Address :: active[i] <==> SourceOf(active) == Some(i)
  {
    forall i: Address ensures active[i] <==> SourceOf(active) == Some(i) {
      if active[i] && SourceOf(active).Some? {
        assert active[SourceOf(active).value];
      }
    }
  }

  lemma OnlySource(d: Address)
    ensures AtMostOne(NO_FLAGS[d := true]) && SourceOf(NO_FLAGS[d := true]) == Some(d)
  {
    SourceOfIs(NO_FLAGS[d := true], Some(d));
  }

  lemma RelocatedStep(b: State, owned: set<Address>, p: PhysicalAddress, client: bool, i: Address)
    requires IsValidPhysicalAddress(p)
    ensures var b' := Relocated(b, Below(owned, i), p, client);
            Relocated(b, Below(owned, i + 1), p, client) ==
            if i in owned then PathSet(if client then Unmarked(b', i, false) else b', i, p) else b'
  {
    var below, upTo := Below(owned, i), Below(owned, i + 1);
    if i in owned {
      assert PathsMoved(b.paths, upTo, p) == PathsMoved(b.paths, below, p)[i := p];
    } else {
      assert upTo == below;
    }
  }

  lemma RelocatedWhole(b: State, owned: set<Address>, p: PhysicalAddress, client: bool)
    ensures Relocated(b, Below(owned, 0), p, client) == b
    ensures Below(owned, 16) == owned
  {
    assert PathsMoved(b.paths, {}, p) == b.paths;
    assert Below(owned, 0) == {};
  }

  /** What is left of activating the source a again when the TV, which mirrors, woke up. */
  lemma ReactivatedIs(b: State, a: Address)
    requires HandledSource(b) == Some(a) && PoweredUp(b.power[TV]) && (a == TV ==> b.sent == NO_FLAGS)
    ensures Activated(b, a, 0) == HandlerActivated(b.(power := b.power[a := On]), a)
  {
  }

  lemma MarkedIsOn(b: State, d: Address)
    ensures Marked(b, d).power[d] == On && Marked(b, d).source == Some(d) && PoweredUp(Marked(b, d).power[TV])
  {
  }

  /** Powering the TV on does nothing when it is up: that edge of the recursion is dead after MarkAsActiveSource. */
  lemma HandlerRunIs(b: State, d: Address, retry: bool, woken: bool)
    requires b.power[d] == On && PoweredUp(b.power[TV])
    ensures HandlerRun(b, d, retry, woken) == HandlerActivated(b, d)
  {
  }

  class Devices {
    var active: Flags
    var power: Powers
    var status: Statuses
    var paths: Paths
    var sent: Flags
    var told: seq<Told>
    var tvHandler: TvHandler
    var switchAllowed: bool

    ghost predicate Valid() reads this {
      AtMostOne(active)
    }

    ghost function Abs(): State reads this {
      State(SourceOf(active), power, status, paths, sent, told, tvHandler, switchAllowed)
    }

    /** How many more power changes a change of d to p can set off: none when it is no change. */
    ghost function Rank(d: Address, p: PowerStatus): nat reads this {
      if power[d] == p then 0 else if d != TV then 1 else NotifyRank(d, p) + 1
    }

    ghost function NotifyRank(d: Address, p: PowerStatus): nat reads this {
      if d != TV then 0 else if p == StandbyToOn || p == OnToStandby then 2 else 1
    }

    /** The same for powering the TV on. */
    ghost function TvRank(): nat reads this {
      if power[TV] == On then 0 else Rank(TV, StandbyToOn)
    }

    ghost function HandlerRank(d: Address): nat reads this {
      if PoweredUp(power[TV]) then Rank(d, On) else 4
    }

    lemma SourceIsHandled(d: Address)
      requires Valid()
      ensures HandledSource(Abs()) == Some(d) <==> active[d] && status[d] == Handled
    {
      ActiveIs(active);
    }

    constructor (handler: TvHandler, allowed: bool)
      ensures Valid() && Abs() == Initial(handler, allowed)
    {
      active, sent := NO_FLAGS, NO_FLAGS;
      power := seq(16, _ => UnknownPower);
      status := seq(16, _ => UnknownStatus);
      paths := seq(16, i => if i == TV then 0 else INVALID_PHYSICAL_ADDRESS);
      told := [];
      tvHandler, switchAllowed := handler, allowed;
      new;
      SourceOfIs(active, None);
      assert paths == Initial(handler, allowed).paths;
    }

    method GetActiveSource() returns (r: Option<Address>)
      requires Valid()
      ensures r == Abs().source
    {
      var i := 0;
      while i < 16
        invariant 0 <= i <= 16
        invariant forall j :: 0 <= j < i ==> !active[j]
      {
        if active[i] {
          SourceOfIs(active, Some(i));
          return Some(i);
        }
        i := i + 1;
      }
      return None;
    }

    method GetDeviceByPhysicalAddress(p: PhysicalAddress) returns (r: Option<Address>)
      ensures r == FirstAt(paths, p, 0)
    {
      var i := 0;
      while i < 16
        invariant 0 <= i <= 16
        invariant FirstAt(paths, p, 0) == FirstAt(paths, p, i)
      {
        if paths[i] == p {
          return Some(i);
        }
        i := i + 1;
      }
      return None;
    }

    method SetPowerStatus(d: Address, p: PowerStatus)
      requires Valid()
      modifies this
      ensures Valid() && Abs() == PowerChanged(old(Abs()), d, p)
      decreases Rank(d, p), 0
    {
      if power[d] == p {
        return;
      }
      power := power[d := p];
      if d == TV {
        sent := NO_FLAGS;
      }
      OnPowerStatusChanged(d, p);
    }

    /** The handler of d, told that d went to p. Only the TV can have the mirroring handler. */
    method OnPowerStatusChanged(d: Address, p: PowerStatus)
      requires Valid() && power[d] == p && (d == TV ==> sent == NO_FLAGS)
      modifies this
      ensures Valid() && Abs() == Notified(old(Abs()), d, p)
      decreases NotifyRank(d, p), 4
    {
      if d != TV || !Mirrors(tvHandler) {
        return;
      }
      var a := GetActiveSource();
      if a.None? || status[a.value] != Handled {
        return;
      }
      if PoweredDown(p) {
        SetPowerStatus(a.value, Standby);
      } else if PoweredUp(p) {
        ReactivatedIs(Abs(), a.value);
        ActivateSource(a.value, 0);
      }
    }

    method OnImageViewOnSent()
      modifies this`power
      ensures power == TvWoken(old(power))
    {
      if !PoweredUp(power[TV]) {
        power := power[TV := StandbyToOn];
      }
    }

    /** Holds for any flags: MarkAsActiveSource calls it while two devices are marked. */
    method MarkAsInactiveSource(d: Address, unregistered: bool)
      modifies this`active, this`told
      ensures active == old(active)[d := false]
      ensures told == old(told) + if old(active[d]) && status[d] == Handled then [Told(false, unregistered)] else []
      ensures old(Valid()) ==> Valid() && Abs() == Unmarked(old(Abs()), d, unregistered)
    {
      var wasDeactivated := active[d];
      ghost var before := SourceOf(active);
      active := active[d := false];
      if wasDeactivated && status[d] == Handled {
        told := told + [Told(false, unregistered)];
      }
      if old(Valid()) {
        SourceOfIs(active, if before == Some(d) then None else before);
      }
    }

    /** The loop of MarkAsActiveSource: besides d, only the losing source can be marked. */
    method MarkOthersInactive(d: Address, ghost loser: Option<Address>)
      requires forall j: Address :: active[j] <==> j == d || loser == Some(j)
      modifies this`active, this`told
      ensures active == NO_FLAGS[d := true]
      ensures told == old(told) + if loser.Some? && loser != Some(d) && status[loser.value] == Handled
                                  then [Told(false, false)] else []
    {
      var i := 0;
      while i < 16
        invariant 0 <= i <= 16
        invariant forall j: Address :: active[j] <==> j == d || (loser == Some(j) && i <= j)
        invariant told == old(told) +
                  if loser.Some? && loser != Some(d) && loser.value < i && status[loser.value] == Handled
                                      then [Told(false, false)] else []
      {
        if i != d {
          MarkAsInactiveSource(i, false);
        }
        i := i + 1;
      }
    }

    /** The rest of MarkAsActiveSource, once the power status is set. */
    method TakeOver(d: Address)
      requires Valid()
      modifies this`active, this`power, this`told
      ensures Valid() && Abs() == TookOver(old(Abs()), d)
      ensures active == NO_FLAGS[d := true]
    {
      ghost var loser := SourceOf(active);
      ActiveIs(active);
      var wasActivated := !active[d];
      active := active[d := true];
      OnImageViewOnSent();
      MarkOthersInactive(d, loser);
      if wasActivated && status[d] == Handled {
        told := told + [Told(true, false)];
      }
      OnlySource(d);
    }

    method MarkAsActiveSource(d: Address)
      requires Valid()
      modifies this
      ensures Valid() && Abs() == Marked(old(Abs()), d)
      ensures active == NO_FLAGS[d := true]
      decreases Rank(d, On), 1
    {
      SetPowerStatus(d, On);
      TakeOver(d);
    }

    method TransmitActiveSource(d: Address)
      requires Valid()
      modifies this`sent
      ensures Abs() == Transmitted(old(Abs()), d)
    {
      if IsValidPhysicalAddress(paths[d]) && PoweredUp(power[d]) && active[d] {
        sent := sent[d := true];
      }
    }

    /** PowerOn on the TV, once "image view on" was sent. */
    method PowerOnTv()
      requires Valid()
      modifies this
      ensures Valid() && Abs() == TvPoweredOn(old(Abs()))
      decreases TvRank(), 1
    {
      if power[TV] != On {
        SetPowerStatus(TV, StandbyToOn);
      }
    }

    /** The base handler's ActivateSource; a retry transmits delayed commands only. */
    method HandlerActivateSource(d: Address, retry: bool, woken: bool)
      requires Valid()
      modifies this
      ensures Valid() && Abs() == HandlerRun(old(Abs()), d, retry, woken)
      decreases HandlerRank(d), 2
    {
      if active[d] && status[d] == Handled {
        SourceIsHandled(d);
        if !retry {
          SetPowerStatus(d, On);
        }
        if woken && status[TV] == Present {
          PowerOnTv();
        }
        if switchAllowed {
          TransmitActiveSource(d);
        }
      } else {
        SourceIsHandled(d);
      }
    }

    /** Whether "image view on" is sent makes no difference here. */
    method ActivateSource(d: Address, delay: nat)
      requires Valid()
      modifies this
      ensures Valid() && Abs() == Activated(old(Abs()), d, delay)
      decreases Rank(d, On), 3
    {
      MarkAsActiveSource(d);
      MarkedIsOn(old(Abs()), d);
      if delay == 0 {
        var woken: bool := *;
        HandlerRunIs(Abs(), d, false, woken);
        HandlerActivateSource(d, false, woken);
      }
    }

    /** TransmitPendingActiveSourceCommands, on a device whose retry is due. */
    method TransmitPendingActiveSourceCommands(d: Address, woken: bool)
      requires Valid()
      modifies this
      ensures Valid() && Abs() == HandlerRun(old(Abs()), d, true, woken)
    {
      HandlerActivateSource(d, true, woken);
    }

    method ResetDeviceStatus(d: Address, unregistered: bool)
      requires Valid()
      modifies this
      ensures Valid() && Abs() == Reset(old(Abs()), d, unregistered)
    {
      SetPowerStatus(d, UnknownPower);
      MarkAsInactiveSource(d, unregistered);
      status := status[d := UnknownStatus];
    }

    method SetDeviceStatus(d: Address, newStatus: DeviceStatus)
      requires Valid()
      modifies this
      ensures Valid() && Abs() == StatusSet(old(Abs()), d, newStatus)
    {
      if d == UNREGISTERED {
        return;
      }
      match newStatus
      case Handled =>
        SetPowerStatus(d, On);
        MarkAsInactiveSource(d, false);
        status := status[d := Handled];
      case Present =>
        status := status[d := Present];
      case NotPresent =>
        if status[d] != NotPresent {
          ResetDeviceStatus(d, true);
          status := status[d := NotPresent];
        }
      case UnknownStatus =>
        ResetDeviceStatus(d, false);
    }

    /** The adapter's answer to the poll is an argument. */
    method TransmitPoll(d: Address, updateStatus: bool, acked: bool) returns (r: bool)
      requires Valid()
      modifies this
      ensures Valid() && Abs() == if updateStatus then Polled(old(Abs()), d, acked) else old(Abs())
      ensures r == (old(status[d]) != Handled && acked)
    {
      if status[d] == Handled {
        return false;
      }
      if updateStatus {
        SetDeviceStatus(d, if acked then Present else NotPresent);
      }
      return acked;
    }

    method GetStatus(d: Address, force: bool, suppress: bool, samsungTv: bool, acked: bool) returns (r: DeviceStatus)
      requires Valid()
      modifies this
      ensures Valid()
      ensures Abs() == if NeedsPoll(old(Abs()), d, force, suppress, samsungTv)
                       then Polled(old(Abs()), d, acked) else old(Abs())
      ensures r == if d == UNREGISTERED then NotPresent else status[d]
    {
      if d == UNREGISTERED {
        return NotPresent;
      }
      r := status[d];
      if !suppress && status[d] != Handled && (!samsungTv || d != TV)
         && (force || status[d] == UnknownStatus || (status[d] == NotPresent && d == TV)) {
        var ok := TransmitPoll(d, true, acked);
        r := if ok then Present else NotPresent;
        SetDeviceStatus(d, r);
      }
    }

    /** The part of HandleCommand that follows a command its handler handled. */
    method AfterCommand(d: Address)
      requires Valid()
      modifies this`status
      ensures Valid() && Abs() == CommandHandled(old(Abs()), d)
    {
      if d != UNREGISTERED && status[d] != Handled {
        status := status[d := Present];
      }
    }

    method TryLogicalAddress(d: Address, acked: bool) returns (r: bool)
      requires Valid()
      modifies this
      ensures Valid() && Abs() == Tried(old(Abs()), d, acked)
      ensures r == Available(old(Abs()), d, acked)
    {
      if status[d] == Present || status[d] == Handled {
        return false;
      }
      var taken := TransmitPoll(d, false, acked);
      SetDeviceStatus(d, if taken then Present else Handled);
      return !taken;
    }

    method SetStreamPath(d: Address, newPath: PhysicalAddress, oldPath: PhysicalAddress)
      requires Valid()
      modifies this
      ensures Valid() && Abs() == Streamed(old(Abs()), d, newPath, oldPath)
    {
      if newPath != INVALID_PHYSICAL_ADDRESS {
        SetPowerStatus(d, On);
      }
      if !IsValidPhysicalAddress(newPath) {
        return;
      }
      var to := GetDeviceByPhysicalAddress(newPath);
      if to.Some? {
        MarkAsActiveSource(to.value);
        if status[to.value] == Handled {
          TransmitActiveSource(to.value);
        }
      } else {
        var from := GetDeviceByPhysicalAddress(oldPath);
        if from.Some? {
          MarkAsInactiveSource(from.value, false);
        }
      }
    }

    method SetActiveRoute(d: Address, route: PhysicalAddress)
      requires Valid()
      modifies this
      ensures Valid() && Abs() == Routed(old(Abs()), d, route)
    {
      SetPowerStatus(d, On);
      var to := GetDeviceByPhysicalAddress(route);
      ActiveIs(active);
      if to.Some? && status[to.value] == Handled && (!sent[d] || !active[to.value]) {
        ActivateSource(to.value, 0);
      }
    }

    method SetPhysicalAddress(d: Address, p: PhysicalAddress)
      modifies this`paths
      ensures Abs() == PathSet(old(Abs()), d, p)
    {
      if p > 0 && paths[d] != p {
        paths := paths[d := p];
      }
    }

    /** CCECClient::SetDevicePhysicalAddress, over the devices of one client. */
    method SetDevicePhysicalAddress(owned: set<Address>, p: PhysicalAddress, client: bool, processor: bool)
      returns (r: bool)
      requires Valid()
      modifies this
      ensures Valid() && Abs() == Moved(old(Abs()), owned, p, client, processor)
      ensures r == IsValidPhysicalAddress(p)
    {
      if !IsValidPhysicalAddress(p) {
        return false;
      }
      ghost var b := Abs();
      RelocatedWhole(b, owned, p, client);
      var reactivate: Option<Address> := None;
      var i := 0;
      while i < 16
        invariant 0 <= i <= 16 && Valid()
        invariant Abs() == Relocated(b, Below(owned, i), p, client)
        invariant reactivate == if OwnsSource(b, Below(owned, i)) then b.source else None
      {
        RelocatedStep(b, owned, p, client, i);
        ActiveIs(active);
        if i in owned {
          if active[i] {
            reactivate := Some(i);
          }
          if client {
            MarkAsInactiveSource(i, false);
          }
          SetPhysicalAddress(i, p);
        }
        i := i + 1;
      }
      if reactivate.Some? && processor && client {
        ActivateSource(reactivate.value, 0);
      }
      return true;
    }
  }
}
