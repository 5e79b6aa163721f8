/**
 What the steps of the routing state do to single devices: the attributes that a step sets, when, and
 that it sets no others. The statements name values, not the functions that the steps are made of.
 */
module BusLaws {
  import opened CecTypes
  import opened Bus
  import opened BusRuns

  // ---------- power ----------

  /** The TV mirrors when it is a Samsung from 2016 on or of unknown year, and the source is ours. */
  predicate MirrorsTo(b: State, a: Address) {
    && b.tvHandler.Samsung? && (b.tvHandler.modelYear == 0 || b.tvHandler.modelYear >= 2016)
    && b.source == Some(a) && b.status[a] == Handled
  }

  /** What "active source" needs on the wire: a valid address, and that switching is allowed. */
  predicate MayTransmit(b: State, a: Address) {
    b.switchAllowed && 0x1000 <= b.paths[a] <= 0xFFFE
  }

  /**
   When a mirroring TV changes its power, the source goes to standby with it or on with it, and stays as
   it is when the TV becomes unknown. "Sent" falls on all devices; a source that goes on sends again.
   */
  lemma MirroredPower(b: State, a: Address, p: PowerStatus)
    requires MirrorsTo(b, a) && b.power[0] != p
    ensures var c := PowerChanged(b, 0, p);
            && (a != 0 ==> c.power[0] == p)
            && c.power[a] == (match p
                              case Standby | OnToStandby => Standby
                              case On | StandbyToOn => On
                              case UnknownPower => if a == 0 then UnknownPower else b.power[a])
            && (forall x: Address :: x != 0 && x != a ==> c.power[x] == b.power[x])
            && (forall x: Address :: c.sent[x] <==> x == a && (p == On || p == StandbyToOn) && MayTransmit(b, a))
  {
  }

  /** Any other TV that changes its power only makes "sent" fall, and any other device changes itself only. */
  lemma PlainPower(b: State, d: Address, p: PowerStatus)
    requires b.power[d] != p && (d != 0 || !exists a: Address :: MirrorsTo(b, a))
    ensures var c := PowerChanged(b, d, p);
            && (forall x: Address :: c.power[x] == if x == d then p else b.power[x])
            && (forall x: Address :: c.sent[x] == (d != 0 && b.sent[x]))
  {
    if d == 0 && HandledSource(b).Some? {
      assert MirrorsTo(b, HandledSource(b).value) <==> Mirrors(b.tvHandler);
    }
  }

  /** A power change of another device than the TV is noted, and that is all. */
  lemma OwnPower(b: State, d: Address, p: PowerStatus)
    requires d != 0
    ensures PowerChanged(b, d, p) == b.(power := b.power[d := p])
  {
  }

  /** A report that changes nothing does nothing. */
  lemma SamePower(b: State, d: Address)
    ensures PowerChanged(b, d, b.power[d]) == b
  {
  }

  /** A Samsung of 2020 in standby takes its source along: the whole way there. */
  lemma StandbyTakesTheSource()
    ensures var b := Marked(Tried(Initial(Samsung(2020), true), 4, false), 4);
            && b.power[4] == On && b.power[0] == StandbyToOn
            && PowerChanged(b, 0, Standby).power[4] == Standby
            && PowerChanged(PowerChanged(b, 0, Standby), 0, On).power[4] == On
  {
    var b := Marked(Tried(Initial(Samsung(2020), true), 4, false), 4);
    MirroredPower(b, 4, Standby);
    MirroredPower(PowerChanged(b, 0, Standby), 4, On);
  }

  // ---------- the active source ----------

  /**
   What marking d tells the adapter: nothing about a source that stays, and otherwise first that a source
   of ours is lost and then that one of ours is won.
   */
  lemma MarkingTells(b: State, d: Address)
    ensures var c := Marked(b, d);
            && (b.source == Some(d) ==> c.told == b.told)
            && (b.source != Some(d) ==>
                  var lost := b.source.Some? && b.status[b.source.value] == Handled;
                  var won := b.status[d] == Handled;
                  && c.told[..|b.told|] == b.told
                  && |c.told| == |b.told| + (if lost then 1 else 0) + (if won then 1 else 0)
                  && (lost ==> c.told[|b.told|] == Told(false, false))
                  && (won ==> c.told[|c.told| - 1] == Told(true, false)))
  {
    PowerNeverMovesTheSource(b, d, On);
  }

  /** Taking a source down tells the adapter once, with the reason, and only if the device is ours. */
  lemma UnmarkingTells(b: State, d: Address, unregistered: bool)
    ensures var c := Unmarked(b, d, unregistered);
            && (c.source == None <==> b.source == None || b.source == Some(d))
            && (c.source != None ==> c.source == b.source)
            && c.told == (if b.source == Some(d) && b.status[d] == Handled then b.told + [Told(false, unregistered)]
                          else b.told)
            && c == b.(source := c.source, told := c.told)
  {
  }

  /** Marking d sets the powers that its own power change sets, and wakes the TV if that leaves it down. */
  lemma MarkedPower(b: State, d: Address)
    ensures var b', c := PowerChanged(b, d, On), Marked(b, d);
            && c.power[d] == On && c.sent == b'.sent
            && (forall x: Address :: c.power[x] ==
                  if x == 0 && b'.power[0] != On && b'.power[0] != StandbyToOn then StandbyToOn else b'.power[x])
  {
  }

  /** "Active source" is sent by activating at once, never by an activation that is scheduled. */
  lemma ActivationSends(b: State, d: Address, delay: nat)
    ensures var c, m := Activated(b, d, delay), Marked(b, d);
            && c.sent[d] == (m.sent[d] || (delay == 0 && b.status[d] == Handled && MayTransmit(b, d)))
            && (forall x: Address :: x != d ==> c.sent[x] == m.sent[x])
            && c == m.(sent := c.sent)
  {
    MarkedFacts(b, d);
  }

  /** Sending is recorded on the device itself, when it is the source, has an address, and is or goes on. */
  lemma SendingIsRecorded(b: State, d: Address)
    ensures var c := Transmitted(b, d);
            && c.sent[d] == (b.sent[d] || (0x1000 <= b.paths[d] <= 0xFFFE && b.source == Some(d)
                                           && (b.power[d] == On || b.power[d] == StandbyToOn)))
            && (forall x: Address :: x != d ==> c.sent[x] == b.sent[x])
            && c == b.(sent := c.sent)
  {
  }

  /** The TV is present and not up. */
  predicate Wakes(b: State) {
    b.status[0] == Present && b.power[0] != On && b.power[0] != StandbyToOn
  }

  /** Waking the TV: a mirroring one sets the source on and has it send; "sent" falls on all others. */
  lemma WakingTheTv(b: State, a: Address)
    requires b.source == Some(a) && b.status[a] == Handled && a != 0 && Wakes(b)
    ensures var c := TvPoweredOn(b);
            && c.power[0] == StandbyToOn
            && c.power[a] == (if MirrorsTo(b, a) then On else b.power[a])
            && c.sent[a] == (MirrorsTo(b, a) && MayTransmit(b, a))
  {
    if MirrorsTo(b, a) {
      MirroredPower(b, a, StandbyToOn);
    } else {
      PlainPower(b, 0, StandbyToOn);
    }
  }

  lemma StaysAwake(b: State, a: Address)
    requires b.source == Some(a) && b.status[a] == Handled && a != 0
    requires b.power[0] == On || b.power[0] == StandbyToOn
    ensures TvPoweredOn(b) == b
  {
  }

  /** A retry does not touch the power of the source, unless waking the TV does, and sends if that is on. */
  lemma RetryWakesTheTv(b: State, a: Address, woken: bool)
    requires b.source == Some(a) && b.status[a] == Handled && a != 0
    ensures var c := HandlerRun(b, a, true, woken);
            var wakes := woken && Wakes(b);
            && c.power[0] == (if wakes then StandbyToOn else b.power[0])
            && c.power[a] == (if wakes && MirrorsTo(b, a) then On else b.power[a])
            && c.sent[a] == (|| (!wakes && b.sent[a])
                             || (MayTransmit(b, a) && (c.power[a] == On || c.power[a] == StandbyToOn)))
  {
    PowerNeverMovesTheSource(b, 0, StandbyToOn);
    if woken && Wakes(b) {
      WakingTheTv(b, a);
    } else if woken && b.status[0] == Present {
      StaysAwake(b, a);
    }
  }

  /** The first run of the handler sets it on. */
  lemma HandlerSetsOn(b: State, a: Address, woken: bool)
    requires b.source == Some(a) && b.status[a] == Handled && a != 0
    ensures HandlerRun(b, a, false, woken).power[a] == On
    ensures HandlerRun(b, a, false, woken).sent[a] == (MayTransmit(b, a) || (b.sent[a] && !(woken && Wakes(b))))
  {
    var b' := PowerChanged(b, a, On);
    OwnPower(b, a, On);
    assert HandlerRun(b, a, false, woken) == HandlerRun(b', a, true, woken);
    RetryWakesTheTv(b', a, woken);
  }

  // ---------- statuses ----------

  /** A reset forgets the power and the status of the device, and takes it down as a source. */
  lemma ResetForgets(b: State, d: Address, unregistered: bool)
    ensures var c := Reset(b, d, unregistered);
            && c.power[d] == UnknownPower && c.status == b.status[d := UnknownStatus]
            && c.power == PowerChanged(b, d, UnknownPower).power && c.sent == PowerChanged(b, d, UnknownPower).sent
            && c.source == (if b.source == Some(d) then None else b.source) && c.paths == b.paths
            && c.told == (if b.source == Some(d) && b.status[d] == Handled then b.told + [Told(false, unregistered)]
                          else b.told)
  {
    PowerNeverMovesTheSource(b, d, UnknownPower);
  }

  /**
   The four statuses. A device becomes ours on, and no source; present is noted and nothing else; absence
   forgets it once, as if its client had gone; anything else forgets it.
   */
  lemma StatusIsSet(b: State, d: Address, status: DeviceStatus)
    requires d != 15
    ensures var c := StatusSet(b, d, status);
            && c.status == b.status[d := status] && c.paths == b.paths
            && (d != 0 ==> c.sent == b.sent && forall x: Address :: x != d ==> c.power[x] == b.power[x])
            && (status == Handled ==>
                  c.power[d] == On && c.power == PowerChanged(b, d, On).power && c.source != Some(d)
                  && c.told == b.told
                            + if b.source == Some(d) && b.status[d] == Handled then [Told(false, false)] else [])
            && (status == Present ==> c == b.(status := b.status[d := Present]))
            && (status == NotPresent && b.status[d] == NotPresent ==> c == b)
            && (status == NotPresent && b.status[d] != NotPresent ==>
                  c.power[d] == UnknownPower && c.source != Some(d)
                  && c.told == b.told
                            + if b.source == Some(d) && b.status[d] == Handled then [Told(false, true)] else [])
            && (status == UnknownStatus ==>
                  c.power[d] == UnknownPower && c.source != Some(d)
                  && c.told == b.told
                            + if b.source == Some(d) && b.status[d] == Handled then [Told(false, false)] else [])
  {
    PowerNeverMovesTheSource(b, d, On);
    ResetForgets(b, d, true);
    ResetForgets(b, d, false);
  }

  /** The broadcast device has no status. */
  lemma BroadcastHasNoStatus(b: State, status: DeviceStatus)
    ensures StatusSet(b, 15, status) == b
  {
  }

  /** A poll makes a device present if it answers and absent if not, and never one of ours. */
  lemma PollTells(b: State, d: Address, acked: bool)
    requires d != 15
    ensures Polled(b, d, acked).status[d] ==
            if b.status[d] == Handled then Handled else if acked then Present else NotPresent
    ensures b.status[d] == Handled ==> Polled(b, d, acked) == b
    ensures forall x: Address :: x != d ==> Polled(b, d, acked).status[x] == b.status[x]
  {
    StatusIsSet(b, d, if acked then Present else NotPresent);
  }

  /** When a status is asked for on the wire: when it is unknown, or forced, or the TV was absent. */
  lemma PollIsNeeded(b: State, d: Address, force: bool, suppress: bool, samsungTv: bool)
    ensures NeedsPoll(b, d, force, suppress, samsungTv) <==>
            && !suppress && b.status[d] != Handled && d != 15 && !(samsungTv && d == 0)
            && (force || b.status[d] == UnknownStatus || (d == 0 && b.status[d] == NotPresent))
  {
  }

  /** Whoever sends a command is present, unless it is one of ours or nobody. */
  lemma SenderIsPresent(b: State, d: Address)
    ensures CommandHandled(b, d) ==
            b.(status := b.status[d := if d == 15 || b.status[d] == Handled then b.status[d] else Present])
  {
  }

  /** An address is tried with a poll: ours when nobody answers, present when somebody does. */
  lemma TryingTakes(b: State, d: Address, acked: bool)
    requires d != 15
    ensures Tried(b, d, acked).status[d] ==
            if b.status[d] == Present then Present
            else if b.status[d] == Handled then Handled
            else if acked then Present else Handled
    ensures Available(b, d, acked) <==> b.status[d] != Present && b.status[d] != Handled && !acked
  {
    StatusIsSet(b, d, if acked then Present else Handled);
  }

  // ---------- physical addresses ----------

  /** The first device at an address, among sixteen. */
  lemma {:induction false} FirstAtIs(paths: Paths, p: PhysicalAddress, i: nat)
    requires i <= 16
    ensures match FirstAt(paths, p, i)
            case Some(a) => i <= a && paths[a] == p && forall x: Address :: i <= x < a ==> paths[x] != p
            case None => forall x: Address :: i <= x ==> paths[x] != p
    decreases 16 - i
  {
    if i < 16 && paths[i] != p {
      FirstAtIs(paths, p, i + 1);
    }
  }

  /**
   A stream path request turns the device that receives it on, unless it is for no address at all. When
   a device is found there it is marked as the source, and sends if it is one of ours.
   */
  lemma StreamingFinds(b: State, d: Address, newPath: PhysicalAddress, oldPath: PhysicalAddress, to: Address)
    requires 0x1000 <= newPath <= 0xFFFE && FirstAt(b.paths, newPath, 0) == Some(to)
    ensures var m := Marked(PowerChanged(b, d, On), to);
            var c := Streamed(b, d, newPath, oldPath);
            && c.sent[to] == (m.sent[to] || b.status[to] == Handled)
            && (forall x: Address :: x != to ==> c.sent[x] == m.sent[x])
            && c == m.(sent := c.sent)
  {
    var b' := PowerChanged(b, d, On);
    PowerNeverMovesTheSource(b, d, On);
    FirstAtIs(b.paths, newPath, 0);
    MarkedFacts(b', to);
  }

  /** When none is found the source at the old address is taken down, and nothing is sent. */
  lemma StreamingFindsNone(b: State, d: Address, newPath: PhysicalAddress, oldPath: PhysicalAddress)
    requires FirstAt(b.paths, newPath, 0) == None || newPath < 0x1000 || newPath == 0xFFFF
    ensures var b' := if newPath == 0xFFFF then b else PowerChanged(b, d, On);
            var c := Streamed(b, d, newPath, oldPath);
            var down := 0x1000 <= newPath <= 0xFFFE && b.source.Some? && FirstAt(b.paths, oldPath, 0) == b.source;
            && c == b'.(source := c.source, told := c.told)
            && c.source == (if down then None else b.source)
            && c.told == (if down && b.status[b.source.value] == Handled then b.told + [Told(false, false)] else b.told)
  {
    PowerNeverMovesTheSource(b, d, On);
  }

  /**
   A routing change to a device of ours activates that device, unless it is the source already and the
   receiver has sent: then, and with any other device at the route, only the receiver turns on.
   */
  lemma RoutingActivates(b: State, d: Address, route: PhysicalAddress, to: Address)
    requires FirstAt(b.paths, route, 0) == Some(to)
    ensures var b' := PowerChanged(b, d, On);
            var c, m := Routed(b, d, route), Marked(b', to);
            if b.status[to] != Handled || (b'.sent[d] && b.source == Some(to)) then c == b'
            else
              && c.sent[to] == (m.sent[to] || MayTransmit(b, to))
              && (forall x: Address :: x != to ==> c.sent[x] == m.sent[x])
              && c == m.(sent := c.sent)
  {
    PowerNeverMovesTheSource(b, d, On);
    ActivationSends(PowerChanged(b, d, On), to, 0);
  }

  /** A routing change to where no device is turns the receiver on. */
  lemma RoutingFindsNone(b: State, d: Address, route: PhysicalAddress)
    requires FirstAt(b.paths, route, 0) == None
    ensures Routed(b, d, route) == PowerChanged(b, d, On)
  {
    PowerNeverMovesTheSource(b, d, On);
  }

  /**
   A client that moves while it owns the source, both initialised, tells the adapter of the old address
   that it is lost and of the new one that it is won, and sends from there. Otherwise it tells at most
   the loss, and only an initialised client does.
   */
  lemma MovingTells(b: State, owned: set<Address>, p: PhysicalAddress, client: bool, processor: bool)
    requires 0x1000 <= p <= 0xFFFE && b.source.Some? && b.source.value in owned
    ensures var c := Moved(b, owned, p, client, processor);
            var s, ours := b.source.value, b.status[b.source.value] == Handled;
            && c.told == b.told + (if !client || !ours then []
                                   else if processor then [Told(false, false), Told(true, false)]
                                   else [Told(false, false)])
            && (client && processor ==> c.power[s] == On && (ours && b.switchAllowed ==> c.sent[s]))
            && (!(client && processor) ==> c.power == b.power && c.sent == b.sent)
  {
    var r, s := Relocated(b, owned, p, client), b.source.value;
    UnmarkingTells(b, s, false);
    MovedMovesItsDevices(b, owned, p, client, false, s);
    MarkingTells(r, s);
    MarkedFacts(r, s);
    ActivationSends(r, s, 0);
  }

  /** A client that owns no source moves without a word. */
  lemma MovingIsSilent(b: State, owned: set<Address>, p: PhysicalAddress, client: bool, processor: bool)
    requires p < 0x1000 || p == 0xFFFF || b.source.None? || b.source.value !in owned
    ensures var c := Moved(b, owned, p, client, processor);
            c == b.(paths := c.paths)
  {
  }

  /** Zero is never stored as an address, and nothing else changes. */
  lemma AddressIsStored(b: State, d: Address, p: PhysicalAddress)
    ensures PathSet(b, d, p) == b.(paths := b.paths[d := if p == 0 then b.paths[d] else p])
  {
  }

  /** At the start nothing is known, only the TV has an address, and nobody was told anything. */
  lemma AtTheStart(handler: TvHandler, allowed: bool, a: Address)
    ensures var b := Initial(handler, allowed);
            && b.power[a] == UnknownPower && b.status[a] == UnknownStatus && !b.sent[a]
            && b.paths[a] == (if a == 0 then 0 else 0xFFFF) && b.source == None && b.told == []
            && b.tvHandler == handler && b.switchAllowed == allowed
  {
  }
}
