/** What holds after every run of the steps that change the routing state. */
module BusRuns {
  import opened CecTypes
  import opened Bus

  datatype Step =
    | PowerReported(d: Address, p: PowerStatus)
    | SourceActivated(d: Address, delay: nat)
    | SourceRetried(d: Address, woken: bool)
    | SourceMarked(d: Address)
    | SourceUnmarked(d: Address, unregistered: bool)
    | StatusReset(d: Address, unregistered: bool)
    | StatusForgotten(d: Address)
    | DevicePolled(d: Address, acked: bool)
    | CommandSeen(d: Address)
    | AddressTried(d: Address, acked: bool)
    | PathStreamed(d: Address, newPath: PhysicalAddress, oldPath: PhysicalAddress)
    | RouteChanged(d: Address, route: PhysicalAddress)
    | PathReported(d: Address, path: PhysicalAddress)
    | ClientMoved(owned: set<Address>, path: PhysicalAddress, client: bool, processor: bool)
    | TvHandlerReplaced(handler: TvHandler)

  function Apply(b: State, s: Step): State {
    match s
    case PowerReported(d, p) => PowerChanged(b, d, p)
    case SourceActivated(d, delay) => Activated(b, d, delay)
    case SourceRetried(d, woken) => HandlerRun(b, d, true, woken)
    case SourceMarked(d) => Marked(b, d)
    case SourceUnmarked(d, unregistered) => Unmarked(b, d, unregistered)
    case StatusReset(d, unregistered) => Reset(b, d, unregistered)
    case StatusForgotten(d) => StatusSet(b, d, UnknownStatus)
    case DevicePolled(d, acked) => Polled(b, d, acked)
    case CommandSeen(d) => CommandHandled(b, d)
    case AddressTried(d, acked) => Tried(b, d, acked)
    case PathStreamed(d, newPath, oldPath) => Streamed(b, d, newPath, oldPath)
    case RouteChanged(d, route) => Routed(b, d, route)
    case PathReported(d, p) => PathSet(b, d, p)
    case ClientMoved(owned, p, client, processor) => Moved(b, owned, p, client, processor)
    case TvHandlerReplaced(handler) => b.(tvHandler := handler)
  }

  function Run(b: State, steps: seq<Step>): State
    decreases |steps|
  {
    if steps == [] then b else Run(Apply(b, steps[0]), steps[1..])
  }

  /** The adapter never hears the same value twice in a row, and "active" comes first. */
  ghost predicate Alternates(told: seq<Told>) {
    forall i :: 0 <= i < |told| ==> (told[i].value <==> i % 2 == 0)
  }

  /** The adapter was last told whether the active source is one of ours. */
  ghost predicate InStep(b: State) {
    Alternates(b.told) && (|b.told| % 2 == 1 <==> HandledSource(b).Some?)
  }

  predicate LastTold(told: seq<Told>) {
    told != [] && told[|told| - 1].value
  }

  lemma InStepMeans(b: State)
    requires InStep(b)
    ensures LastTold(b.told) <==> HandledSource(b).Some?
  {
    if b.told != [] {
      assert b.told[|b.told| - 1].value <==> (|b.told| - 1) % 2 == 0;
    }
  }

  lemma TellAlternates(told: seq<Told>, t: Told)
    requires Alternates(told) && (t.value <==> |told| % 2 == 0)
    ensures Alternates(told + [t])
  {
  }

  /** Power reports, even those the TV's handler reacts to, never move the source or tell the adapter. */
  lemma PowerNeverMovesTheSource(b: State, d: Address, p: PowerStatus)
    ensures var c := PowerChanged(b, d, p);
            && c.source == b.source && c.told == b.told && c.status == b.status && c.paths == b.paths
            && (p == On || HandledSource(b) != Some(TV) ==> c.power[d] == p)
    ensures InStep(b) ==> InStep(PowerChanged(b, d, p))
  {
  }

  /** The base handler, retries included, moves no source and tells the adapter nothing, even when it wakes the TV. */
  lemma HandlerRunFacts(b: State, d: Address, retry: bool, woken: bool)
    ensures var c := HandlerRun(b, d, retry, woken);
            && c.source == b.source && c.told == b.told && c.status == b.status && c.paths == b.paths
    ensures InStep(b) ==> InStep(HandlerRun(b, d, retry, woken))
  {
    var b1 := if retry then b else PowerChanged(b, d, On);
    PowerNeverMovesTheSource(b, d, On);
    PowerNeverMovesTheSource(b1, TV, StandbyToOn);
  }

  lemma HandoverAlternates(b: State, d: Address)
    requires InStep(b)
    ensures var told := b.told + Handover(b, d);
            Alternates(told) && (|told| % 2 == 1 <==> b.status[d] == Handled)
  {
    if b.source != Some(d) {
      var lost := if HandledSource(b).Some? then [Told(false, false)] else [];
      if lost != [] {
        TellAlternates(b.told, lost[0]);
      }
      assert b.told + lost == if lost == [] then b.told else b.told + [lost[0]];
      if b.status[d] == Handled {
        TellAlternates(b.told + lost, Told(true, false));
        assert b.told + Handover(b, d) == (b.told + lost) + [Told(true, false)];
      } else {
        assert b.told + Handover(b, d) == b.told + lost;
      }
    }
  }

  lemma MarkedFacts(b: State, d: Address)
    ensures var m := Marked(b, d);
            && m.source == Some(d) && m.power[d] == On && PoweredUp(m.power[TV])
            && m.status == b.status && m.paths == b.paths
    ensures InStep(b) ==> InStep(Marked(b, d))
  {
    PowerNeverMovesTheSource(b, d, On);
    if InStep(b) {
      HandoverAlternates(PowerChanged(b, d, On), d);
    }
  }

  lemma UnmarkedInStep(b: State, d: Address, unregistered: bool)
    requires InStep(b)
    ensures InStep(Unmarked(b, d, unregistered))
  {
    if HandledSource(b) == Some(d) {
      TellAlternates(b.told, Told(false, unregistered));
    }
  }

  lemma ResetInStep(b: State, d: Address, unregistered: bool)
    requires InStep(b)
    ensures InStep(Reset(b, d, unregistered)) && Reset(b, d, unregistered).source != Some(d)
  {
    PowerNeverMovesTheSource(b, d, UnknownPower);
    UnmarkedInStep(PowerChanged(b, d, UnknownPower), d, unregistered);
  }

  lemma ActivatedFacts(b: State, d: Address, delay: nat)
    ensures var m := Activated(b, d, delay);
            && m.source == Some(d) && m.power[d] == On && PoweredUp(m.power[TV])
            && m.status == b.status && m.paths == b.paths
    ensures InStep(b) ==> InStep(Activated(b, d, delay))
  {
    MarkedFacts(b, d);
  }

  lemma StatusSetInStep(b: State, d: Address, status: DeviceStatus)
    requires InStep(b) && (status == Present ==> HandledSource(b) != Some(d))
    ensures InStep(StatusSet(b, d, status))
  {
    match status
    case Handled =>
      PowerNeverMovesTheSource(b, d, On);
      UnmarkedInStep(PowerChanged(b, d, On), d, false);
    case Present =>
    case NotPresent => ResetInStep(b, d, true);
    case UnknownStatus => ResetInStep(b, d, false);
  }

  /**
   Setting the status "present" directly, with no guard, leaves the adapter with the right value
   exactly when the device is not a source of ours.
   */
  lemma UnguardedPresent(b: State, d: Address)
    requires InStep(b)
    ensures InStep(StatusSet(b, d, Present)) <==> d == UNREGISTERED || HandledSource(b) != Some(d)
  {
  }

  /** Where a stream path request leaves the source. */
  lemma StreamedSource(b: State, d: Address, newPath: PhysicalAddress, oldPath: PhysicalAddress)
    ensures Streamed(b, d, newPath, oldPath).source ==
            if !IsValidPhysicalAddress(newPath) then b.source
            else match FirstAt(b.paths, newPath, 0)
              case Some(to) => Some(to)
              case None => if b.source.Some? && FirstAt(b.paths, oldPath, 0) == b.source then None else b.source
    ensures InStep(b) ==> InStep(Streamed(b, d, newPath, oldPath))
  {
    var b' := if newPath != INVALID_PHYSICAL_ADDRESS then PowerChanged(b, d, On) else b;
    PowerNeverMovesTheSource(b, d, On);
    match FirstAt(b.paths, newPath, 0)
    case Some(to) => MarkedFacts(b', to);
    case None =>
      match FirstAt(b.paths, oldPath, 0)
      case Some(from) => if InStep(b) { UnmarkedInStep(b', from, false); }
      case None =>
  }

  /** A routing change to a device of ours makes it the source, any other leaves the source alone. */
  lemma RoutedSource(b: State, d: Address, route: PhysicalAddress)
    ensures Routed(b, d, route).source ==
            match FirstAt(b.paths, route, 0)
            case Some(to) => if b.status[to] == Handled then Some(to) else b.source
            case None => b.source
    ensures InStep(b) ==> InStep(Routed(b, d, route))
  {
    var b' := PowerChanged(b, d, On);
    PowerNeverMovesTheSource(b, d, On);
    if FirstAt(b.paths, route, 0).Some? {
      ActivatedFacts(b', FirstAt(b.paths, route, 0).value, 0);
    }
  }

  /**
   Moving a client to another physical address leaves the source where it is, unless the client is
   initialised and the processor no longer is: then a source that the client owns is given up.
   */
  lemma MovedKeepsTheSource(b: State, owned: set<Address>, p: PhysicalAddress, client: bool, processor: bool)
    ensures var m := Moved(b, owned, p, client, processor);
            && (m.source == b.source <==> !(IsValidPhysicalAddress(p) && OwnsSource(b, owned) && client && !processor))
            && (m.source != b.source ==> m.source == None)
            && m.status == b.status
            && m.paths == (if IsValidPhysicalAddress(p) then PathsMoved(b.paths, owned, p) else b.paths)
            && (InStep(b) ==> InStep(m))
  {
    if OwnsSource(b, owned) && client && IsValidPhysicalAddress(p) {
      var s := b.source.value;
      if InStep(b) {
        UnmarkedInStep(b, s, false);
      }
      ActivatedFacts(Relocated(b, owned, p, client), s, 0);
    }
  }

  /** It moves the devices it owns, all of them and no others, when the address is valid. */
  lemma MovedMovesItsDevices(b: State, owned: set<Address>, p: PhysicalAddress, client: bool,
                               processor: bool, a: Address)
    ensures Moved(b, owned, p, client, processor).paths[a] ==
            if a in owned && IsValidPhysicalAddress(p) then p else b.paths[a]
  {
    MovedKeepsTheSource(b, owned, p, client, processor);
  }

  lemma StepKeepsInStep(b: State, s: Step)
    requires InStep(b)
    ensures InStep(Apply(b, s))
  {
    match s
    case PowerReported(d, p) => PowerNeverMovesTheSource(b, d, p);
    case SourceUnmarked(d, unregistered) => UnmarkedInStep(b, d, unregistered);
    case StatusReset(d, unregistered) => ResetInStep(b, d, unregistered);
    case StatusForgotten(d) => StatusSetInStep(b, d, UnknownStatus);
    case SourceActivated(d, delay) => ActivatedFacts(b, d, delay);
    case SourceRetried(d, woken) => HandlerRunFacts(b, d, true, woken);
    case SourceMarked(d) => MarkedFacts(b, d);
    case PathStreamed(d, newPath, oldPath) => StreamedSource(b, d, newPath, oldPath);
    case RouteChanged(d, route) => RoutedSource(b, d, route);
    case ClientMoved(owned, p, client, processor) => MovedKeepsTheSource(b, owned, p, client, processor);
    case AddressTried(d, acked) =>
      if b.status[d] != Handled { StatusSetInStep(b, d, if acked then Present else Handled); }
    case DevicePolled(d, acked) =>
      if b.status[d] != Handled { StatusSetInStep(b, d, if acked then Present else NotPresent); }
    case CommandSeen(d) =>
      if b.status[d] != Handled { StatusSetInStep(b, d, Present); }
    case PathReported(d, path) =>
    case TvHandlerReplaced(handler) =>
  }

  lemma {:induction false} RunKeepsInStep(b: State, steps: seq<Step>)
    requires InStep(b)
    ensures InStep(Run(b, steps))
    ensures var c := Run(b, steps);
            LastTold(c.told) <==> c.source.Some? && c.status[c.source.value] == Handled
    decreases |steps|
  {
    if steps == [] {
      InStepMeans(b);
    } else {
      StepKeepsInStep(b, steps[0]);
      RunKeepsInStep(Apply(b, steps[0]), steps[1..]);
    }
  }

  /** Every run from the start: the adapter's value is the last one told, and it is right. */
  lemma RunFromTheStart(handler: TvHandler, allowed: bool, steps: seq<Step>)
    ensures var b := Run(Initial(handler, allowed), steps);
            InStep(b) && (LastTold(b.told) <==> b.source.Some? && b.status[b.source.value] == Handled)
  {
    RunKeepsInStep(Initial(handler, allowed), steps);
  }

  const START := Initial(Plain, true)

  lemma TriedIsHandled(b: State, d: Address)
    requires d != UNREGISTERED && b.status[d] == UnknownStatus
    ensures Tried(b, d, false).status[d] == Handled
  {
    PowerNeverMovesTheSource(b, d, On);
  }

  /** The unguarded status change goes wrong on a device of ours that is the source. */
  lemma UnguardedPresentGoesWrong()
    ensures var b := Marked(Tried(START, PLAYBACK_DEVICE1, false), PLAYBACK_DEVICE1);
            && InStep(b) && LastTold(b.told)
            && HandledSource(StatusSet(b, PLAYBACK_DEVICE1, Present)).None?
            && LastTold(StatusSet(b, PLAYBACK_DEVICE1, Present).told)
  {
    var b1 := Tried(START, PLAYBACK_DEVICE1, false);
    TriedIsHandled(START, PLAYBACK_DEVICE1);
    StepKeepsInStep(START, AddressTried(PLAYBACK_DEVICE1, false));
    MarkedFacts(b1, PLAYBACK_DEVICE1);
    InStepMeans(Marked(b1, PLAYBACK_DEVICE1));
  }
}
