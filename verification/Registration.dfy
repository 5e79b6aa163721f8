/**
 Registering clients: which client owns which logical address, and the mask of addresses that the
 adapter acknowledges. The owners, the statuses of the devices and the mask are three records of
 the same thing, kept by different code.
 */
module Registration {
  import opened CecTypes
  import opened Bus
  import opened BusRuns
  import opened Allocation

  /** What the processor holds. An owner is the index of a client. */
  datatype Hub = Hub(bus: State, owners: map<Address, nat>, mask: Addresses)

  datatype Client = Client(
    monitorOnly: bool,
    types: Slots,
    addresses: Addresses,   // stays filled in after the client was unregistered
    physical: PhysicalAddress,
    registered: bool,
    initialised: bool)

  /** What a registration meets: the processor, the adapter, the TV, and who answers a poll. */
  datatype Env = Env(initialised: bool, sourceSupported: bool, accepts: bool, panasonic: bool, acks: set<Address>)

  function Smallest(keys: set<Address>, i: nat): Address
    requires i <= 16
    decreases 16 - i
  {
    if i == 16 then UNREGISTERED else if i in keys then i else Smallest(keys, i + 1)
  }

  /** CCECProcessor::GetLogicalAddresses. */
  function MaskOf(keys: set<Address>): Addresses {
    Addresses(Smallest(keys, 0), keys)
  }

  /** A refused mask leaves the adapter with the one it had. */
  function Masked(h: Hub, accepts: bool): Hub {
    if accepts then h.(mask := MaskOf(h.owners.Keys)) else h
  }

  /** ResetDeviceStatus(true) of the devices in members, from address i on. */
  function ResetAll(b: State, members: set<Address>, i: nat): State
    requires i <= 16
    decreases 16 - i
  {
    if i == 16 then b else ResetAll(if i in members then Reset(b, i, true) else b, members, i + 1)
  }

  function Claimed(owners: map<Address, nat>, members: set<Address>, id: nat): map<Address, nat> {
    map a | a in owners.Keys + members :: if a in members then id else owners[a]
  }

  datatype Outcome = Outcome(hub: Hub, client: Client, ok: bool)

  /** CCECProcessor::UnregisterClient; ok says whether the adapter took the new mask. */
  function Unregistered(h: Hub, c: Client, accepts: bool): Outcome {
    var h' := h.(bus := ResetAll(h.bus, c.addresses.members, 0), owners := h.owners - c.addresses.members);
    Outcome(Masked(h', accepts), c.(registered := false, initialised := false), accepts)
  }

  /** The new addresses with the client's physical address on each of them. */
  function Placed(b: State, members: set<Address>, p: PhysicalAddress): State {
    if IsValidPhysicalAddress(p) then b.(paths := PathsMoved(b.paths, members, p)) else b
  }

  /** CCECProcessor::AllocateLogicalAddresses for client number id. */
  function WithAddresses(h: Hub, c: Client, id: nat, env: Env): Outcome {
    var types := Supported(c.types, env.panasonic);
    var r := Allocate(h.bus, env.acks, NO_ADDRESSES, types);
    var owners := h.owners - c.addresses.members;
    var c' := c.(registered := false, types := SlotsOf(types), addresses := r.list);
    if types == [] || !r.ok then Outcome(h.(bus := r.bus, owners := owners), c', false)
    else
      var h' := h.(bus := Placed(r.bus, r.list.members, c.physical), owners := Claimed(owners, r.list.members, id));
      Outcome(Masked(h', env.accepts), c', true)
  }

  /** The part of RegisterClient that first takes a registered client off its addresses. */
  function Cleared(h: Hub, c: Client, env: Env): Outcome {
    if c.registered then Unregistered(h, c, env.accepts) else Outcome(h, c, true)
  }

  /** OnRegister: fails on a client without any device. */
  function OnRegister(h: Hub, c: Client): Outcome {
    if c.initialised then Outcome(h, c, true)
    else Outcome(h, c.(initialised := c.addresses.members != {}), c.addresses.members != {})
  }

  /** CCECProcessor::RegisterClient. */
  function Registered(h: Hub, c: Client, id: nat, env: Env): Outcome {
    if c.monitorOnly then Outcome(h, c, true)
    else if !env.initialised then Outcome(h, c, false)
    else
      var start := Cleared(h, c, env);
      if !env.sourceSupported then start.(ok := false)
      else
        var r := WithAddresses(start.hub, start.client.(initialised := false), id, env);
        if r.ok then OnRegister(r.hub, r.client.(registered := true))
        else if env.accepts then r.(hub := r.hub.(mask := MaskOf(start.hub.owners.Keys)))
        else r
  }

  // ---------- the mask ----------

  lemma {:induction false} SmallestIs(keys: set<Address>, i: nat)
    requires i <= 16
    ensures Smallest(keys, i) == UNREGISTERED || (Smallest(keys, i) in keys && i <= Smallest(keys, i))
    ensures forall k :: k in keys && i <= k ==> Smallest(keys, i) <= k
    decreases 16 - i
  {
    if i < 16 {
      SmallestIs(keys, i + 1);
    }
  }

  /** The primary address of the mask is the smallest key, or "unregistered" when there is none. */
  lemma MaskPrimary(keys: set<Address>)
    requires UNREGISTERED !in keys
    ensures MaskOf(keys).primary == UNREGISTERED <==> keys == {}
    ensures keys != {} ==> MaskOf(keys).primary in keys && forall k :: k in keys ==> MaskOf(keys).primary <= k
  {
    SmallestIs(keys, 0);
    if Smallest(keys, 0) == UNREGISTERED {
      forall k | k in keys
        ensures false
      {
        assert Smallest(keys, 0) <= k;
      }
    }
  }

  predicate MaskIsKeys(h: Hub) {
    h.mask == MaskOf(h.owners.Keys)
  }

  /** Every key, the TV aside, is a device that libCEC handles. */
  ghost predicate KeysHandled(h: Hub) {
    forall a: Address :: a in h.owners && a != TV ==> h.bus.status[a] == Handled
  }

  /** Every device that libCEC handles is a key. */
  ghost predicate HandledOwned(h: Hub) {
    forall a: Address :: h.bus.status[a] == Handled ==> a in h.owners
  }

  // ---------- one client ----------

  lemma {:induction false} ResetAllFacts(b: State, members: set<Address>, i: nat)
    requires i <= 16
    ensures var b' := ResetAll(b, members, i);
            && (InStep(b) ==> InStep(b'))
            && forall x: Address :: b'.status[x] == if x in members && i <= x then UnknownStatus else b.status[x]
    decreases 16 - i
  {
    if i < 16 {
      if i in members {
        PowerNeverMovesTheSource(b, i, UnknownPower);
        if InStep(b) {
          ResetInStep(b, i, true);
        }
        ResetAllFacts(Reset(b, i, true), members, i + 1);
      } else {
        ResetAllFacts(b, members, i + 1);
      }
    }
  }

  lemma UnregisteredFacts(h: Hub, c: Client, accepts: bool)
    ensures var r := Unregistered(h, c, accepts);
            && r.hub.owners == h.owners - c.addresses.members
            && r.client == c.(registered := false, initialised := false) && r.ok == accepts
            && (InStep(h.bus) ==> InStep(r.hub.bus))
            && (KeysHandled(h) ==> KeysHandled(r.hub)) && (HandledOwned(h) ==> HandledOwned(r.hub))
            && (accepts ==> MaskIsKeys(r.hub)) && (!accepts ==> r.hub.mask == h.mask)
            && forall x: Address :: r.hub.bus.status[x] ==
                 if x in c.addresses.members then UnknownStatus else h.bus.status[x]
  {
    ResetAllFacts(h.bus, c.addresses.members, 0);
  }

  lemma PlacedFacts(b: State, members: set<Address>, p: PhysicalAddress)
    ensures Placed(b, members, p).status == b.status && (InStep(b) ==> InStep(Placed(b, members, p)))
  {
  }

  lemma WithAddressesOwners(h: Hub, c: Client, id: nat, env: Env)
    ensures var r := WithAddresses(h, c, id, env);
            && r.hub.owners == (if r.ok then Claimed(h.owners - c.addresses.members, r.client.addresses.members, id)
                                else h.owners - c.addresses.members)
            && r.hub.mask == (if r.ok && env.accepts then MaskOf(r.hub.owners.Keys) else h.mask)
  {
  }

  /** What WithAddresses does, in terms of what Allocation says the client deserves. */
  lemma WithAddressesFacts(h: Hub, c: Client, id: nat, env: Env) returns (got: seq<Address>)
    ensures var r := WithAddresses(h, c, id, env);
            var types := Supported(c.types, env.panasonic);
            && Fair(h.bus, env.acks, types, got) && (r.ok <==> types != [] && |got| == |types|)
            && r.client.addresses.members == (set a | a in got) && |r.client.addresses.members| == |got|
            && r.client.addresses.primary == (if got == [] then UNREGISTERED else got[0])
            && UNREGISTERED !in r.client.addresses.members
            && (InStep(h.bus) ==> InStep(r.hub.bus))
            && (forall x: Address :: r.hub.bus.status[x] == Handled <==>
                  h.bus.status[x] == Handled || (x in r.client.addresses.members && x != TV))
            && r.hub.owners == (if r.ok then Claimed(h.owners - c.addresses.members, r.client.addresses.members, id)
                                else h.owners - c.addresses.members)
            && r.hub.mask == (if r.ok && env.accepts then MaskOf(r.hub.owners.Keys) else h.mask)
  {
    SupportedTypes(c.types, env.panasonic);
    got := AllocationIsFirstFit(h.bus, env.acks, Supported(c.types, env.panasonic));
    var r := Allocate(h.bus, env.acks, NO_ADDRESSES, Supported(c.types, env.panasonic));
    PlacedFacts(r.bus, r.list.members, c.physical);
    WithAddressesOwners(h, c, id, env);
  }

  /** Whether RegisterClient goes beyond its first checks. */
  predicate Starts(c: Client, env: Env) {
    !c.monitorOnly && env.initialised
  }

  lemma ClearedFacts(h: Hub, c: Client, env: Env)
    ensures var r := Cleared(h, c, env);
            && r.hub.owners == (if c.registered then h.owners - c.addresses.members else h.owners)
            && r.client.(initialised := false) == c.(registered := false, initialised := false)
            && (InStep(h.bus) ==> InStep(r.hub.bus))
            && (KeysHandled(h) ==> KeysHandled(r.hub)) && (HandledOwned(h) ==> HandledOwned(r.hub))
            && (c.registered && env.accepts ==> MaskIsKeys(r.hub))
            && (!(c.registered && env.accepts) ==> r.hub.mask == h.mask)
            && forall x: Address :: r.hub.bus.status[x] ==
                 if c.registered && x in c.addresses.members then UnknownStatus else h.bus.status[x]
  {
    UnregisteredFacts(h, c, env.accepts);
  }

  /** What RegisterClient needs beyond its first checks: a type to ask for, and none that is exhausted. */
  ghost predicate Succeeds(h: Hub, c: Client, env: Env) {
    var types := Supported(c.types, env.panasonic);
    && env.sourceSupported && types != []
    && forall t :: t in types ==> !Exhausted(Cleared(h, c, env).hub.bus, env.acks, t)
  }

  lemma AllocatesExactlyWhen(h: Hub, c: Client, id: nat, env: Env)
    requires env.sourceSupported
    ensures var start := Cleared(h, c, env);
            var r := WithAddresses(start.hub, start.client.(initialised := false), id, env);
            && (r.ok <==> Succeeds(h, c, env))
            && (r.ok ==> r.client.addresses.members != {})
  {
    ClearedFacts(h, c, env);
    var start := Cleared(h, c, env);
    var got := WithAddressesFacts(start.hub, start.client.(initialised := false), id, env);
    FairIsComplete(start.hub.bus, env.acks, Supported(c.types, env.panasonic), got);
  }

  /** OnRegister never fails on a client whose addresses were just allocated. */
  lemma RegistersExactlyWhen(h: Hub, c: Client, id: nat, env: Env)
    requires Starts(c, env)
    ensures Registered(h, c, id, env).ok <==> Succeeds(h, c, env)
    ensures Succeeds(h, c, env) ==>
              Registered(h, c, id, env).client.registered && Registered(h, c, id, env).client.initialised
  {
    if env.sourceSupported {
      AllocatesExactlyWhen(h, c, id, env);
    }
  }

  /** Everything a registration changes, in terms of the state it starts from. */
  lemma RegisteredFacts(h: Hub, c: Client, id: nat, env: Env) returns (got: seq<Address>)
    requires Starts(c, env) && env.sourceSupported
    ensures var start := Cleared(h, c, env).hub;
            var r := Registered(h, c, id, env);
            var left := start.owners - c.addresses.members;
            && Fair(start.bus, env.acks, Supported(c.types, env.panasonic), got)
            && (r.ok <==> Succeeds(h, c, env)) && (r.ok ==> |got| == |Supported(c.types, env.panasonic)|)
            && r.client.addresses.members == (set a | a in got) && r.client.registered == r.ok
            && UNREGISTERED !in r.client.addresses.members
            && (InStep(start.bus) ==> InStep(r.hub.bus))
            && (forall x: Address :: r.hub.bus.status[x] == Handled <==>
                 start.bus.status[x] == Handled || (x in got && x != TV))
            && r.hub.owners == (if r.ok then Claimed(left, r.client.addresses.members, id) else left)
            && r.hub.mask == (if !env.accepts then start.mask
                              else MaskOf(if r.ok then r.hub.owners.Keys else start.owners.Keys))
  {
    AllocatesExactlyWhen(h, c, id, env);
    ClearedFacts(h, c, env);
    var start := Cleared(h, c, env);
    got := WithAddressesFacts(start.hub, start.client.(initialised := false), id, env);
  }

  /** Registering, successful or not, keeps what is true of every key. */
  lemma RegisteredKeeps(h: Hub, c: Client, id: nat, env: Env)
    ensures var r := Registered(h, c, id, env);
            && (KeysHandled(h) ==> KeysHandled(r.hub)) && (InStep(h.bus) ==> InStep(r.hub.bus))
            && (UNREGISTERED !in h.owners ==> UNREGISTERED !in r.hub.owners)
  {
    if Starts(c, env) {
      ClearedFacts(h, c, env);
      if env.sourceSupported {
        var got := RegisteredFacts(h, c, id, env);
      }
    }
  }

  /**
   With an adapter that takes every mask, the mask is that of the keys after a registration, with one
   exception: one that fails for its types, of a client that is not registered but whose old list
   names a key.
   */
  lemma MaskAfterRegistering(h: Hub, c: Client, id: nat, env: Env)
    requires env.accepts && MaskIsKeys(h)
    ensures MaskIsKeys(Registered(h, c, id, env).hub) <==>
            !Starts(c, env) || !env.sourceSupported || c.registered
            || c.addresses.members !! h.owners.Keys || Succeeds(h, c, env)
  {
    if Starts(c, env) {
      ClearedFacts(h, c, env);
      if env.sourceSupported {
        var got := RegisteredFacts(h, c, id, env);
        var keys := Cleared(h, c, env).hub.owners.Keys;
        assert (Cleared(h, c, env).hub.owners - c.addresses.members).Keys == keys - c.addresses.members;
        assert keys - c.addresses.members == keys <==> c.addresses.members !! keys;
      }
    }
  }

  // ---------- what a registration does to the others ----------

  lemma GotWasFree(b: State, acks: set<Address>, types: seq<DeviceType>, got: seq<Address>)
    requires Fair(b, acks, types, got)
    ensures forall a :: a in got && a != TV ==> Free(b, acks, a)
  {
    forall a | a in got && a != TV
      ensures Free(b, acks, a)
    {
      var i :| 0 <= i < |got| && got[i] == a;
      assert Deserves(b, acks, types[i], a);
    }
  }

  lemma GotTheTv(b: State, acks: set<Address>, types: seq<DeviceType>, got: seq<Address>)
    requires Fair(b, acks, types, got) && |got| == |types|
    ensures TV in got <==> TvType in types
  {
    if TvType in types {
      var i :| 0 <= i < |types| && types[i] == TvType;
      assert Deserves(b, acks, types[i], got[i]);
    }
    if TV in got {
      var i :| 0 <= i < |got| && got[i] == TV;
      assert GetType(got[i]) == types[i];
    }
  }

  /**
   An address that another client owns is lost exactly when the list of this client still names it,
   or when it is the address of the TV, and this client asks for that and succeeds. No address is
   ever taken from an owner by first fit.
   */
  lemma OthersKeepTheirs(h: Hub, c: Client, id: nat, env: Env, a: Address)
    requires KeysHandled(h) && a in h.owners && h.owners[a] != id
    ensures var r := Registered(h, c, id, env);
            (a in r.hub.owners && r.hub.owners[a] == h.owners[a]) <==>
            !Starts(c, env)
            || ((a in c.addresses.members ==> !c.registered && !env.sourceSupported)
                && (a == TV ==> !(TvType in Supported(c.types, env.panasonic) && Succeeds(h, c, env))))
  {
    if Starts(c, env) {
      ClearedFacts(h, c, env);
      if env.sourceSupported {
        var types := Supported(c.types, env.panasonic);
        var got := RegisteredFacts(h, c, id, env);
        GotWasFree(Cleared(h, c, env).hub.bus, env.acks, types, got);
        if Succeeds(h, c, env) {
          GotTheTv(Cleared(h, c, env).hub.bus, env.acks, types, got);
        }
      }
    }
  }

  /** The first type that needs a poll. */
  function FirstPolled(types: seq<DeviceType>): Option<DeviceType> {
    if types == [] then None
    else if types[0] != TvType then Some(types[0])
    else if |types| == 1 then None else Some(types[1])
  }

  lemma GotNothing(b: State, acks: set<Address>, types: seq<DeviceType>, got: seq<Address>)
    requires Distinct(types) && Fair(b, acks, types, got) && types != []
    ensures (forall a :: a in got ==> a == TV) <==>
            FirstPolled(types).None? || Exhausted(b, acks, FirstPolled(types).value)
  {
    forall i | 0 <= i < |got|
      ensures got[i] == TV <==> types[i] == TvType
    {
      assert Deserves(b, acks, types[i], got[i]);
      OrderTypes(types[i]);
    }
    var k := if types[0] == TvType then 1 else 0;
    if k < |got| {
      assert got[k] in got;
    }
  }

  /** A device that libCEC handles for nobody. */
  predicate Leaked(h: Hub, a: Address) {
    h.bus.status[a] == Handled && a !in h.owners
  }

  /** The list of a client that is not registered names no device that libCEC handles. */
  ghost predicate NoStaleList(h: Hub, c: Client) {
    c.registered || forall a :: a in c.addresses.members ==> h.bus.status[a] != Handled
  }

  /** None of the addresses that a registration takes is kept in vain. */
  ghost predicate NothingInVain(h: Hub, c: Client, env: Env) {
    var types := Supported(c.types, env.panasonic);
    var polled := FirstPolled(types);
    types == [] || Succeeds(h, c, env) || polled.None? || Exhausted(Cleared(h, c, env).hub.bus, env.acks, polled.value)
  }

  lemma LeaksByWhatItGot(h: Hub, c: Client, id: nat, env: Env, got: seq<Address>)
    requires KeysHandled(h) && HandledOwned(h) && h.bus.status[TV] != Handled
    requires Starts(c, env) && env.sourceSupported
    requires var start, r := Cleared(h, c, env).hub, Registered(h, c, id, env);
             var left := start.owners - c.addresses.members;
             && (forall a :: a in got && a != TV ==> start.bus.status[a] != Handled)
             && r.client.addresses.members == (set a | a in got)
             && r.hub.owners == (if r.ok then Claimed(left, r.client.addresses.members, id) else left)
             && (forall x: Address :: r.hub.bus.status[x] == Handled <==>
                   start.bus.status[x] == Handled || (x in got && x != TV))
    ensures HandledOwned(Registered(h, c, id, env).hub) <==>
            NoStaleList(h, c) && (Registered(h, c, id, env).ok || forall a :: a in got ==> a == TV)
    ensures !Registered(h, c, id, env).ok ==>
              forall a :: a in got && a != TV ==> Leaked(Registered(h, c, id, env).hub, a)
  {
    ClearedFacts(h, c, env);
    var r := Registered(h, c, id, env);
    if !NoStaleList(h, c) {
      var a :| a in c.addresses.members && h.bus.status[a] == Handled;
      assert a !in got;
      assert Leaked(r.hub, a);
    }
    if a :| a in got && a != TV && !r.ok {
      assert Leaked(r.hub, a);
    }
  }

  /**
   Exactly when every handled device still has an owner after a registration, successful or not: a stale
   list takes owners away, and a failure keeps the addresses it got, unless the first type it polled for
   was exhausted already.
   */
  lemma LeaksExactlyWhen(h: Hub, c: Client, id: nat, env: Env)
    requires KeysHandled(h) && HandledOwned(h) && h.bus.status[TV] != Handled
    ensures HandledOwned(Registered(h, c, id, env).hub) <==>
            !Starts(c, env) || !env.sourceSupported || (NoStaleList(h, c) && NothingInVain(h, c, env))
    ensures Starts(c, env) && env.sourceSupported && !Succeeds(h, c, env) ==>
              forall a :: a in Registered(h, c, id, env).client.addresses.members && a != TV ==>
                Leaked(Registered(h, c, id, env).hub, a)
  {
    if Starts(c, env) {
      ClearedFacts(h, c, env);
      if env.sourceSupported {
        var start, types := Cleared(h, c, env).hub, Supported(c.types, env.panasonic);
        var got := RegisteredFacts(h, c, id, env);
        GotWasFree(start.bus, env.acks, types, got);
        SupportedTypes(c.types, env.panasonic);
        if types != [] {
          GotNothing(start.bus, env.acks, types, got);
        }
        LeaksByWhatItGot(h, c, id, env, got);
      }
    }
  }

  // ---------- runs over any number of clients ----------

  datatype World = World(hub: Hub, clients: seq<Client>)

  datatype Step =
    | Register(id: nat, env: Env)
    | Unregister(id: nat, accepts: bool)
    | OnBus(step: BusRuns.Step)

  function Apply(w: World, s: Step): World {
    match s
    case Register(id, env) =>
      if id >= |w.clients| then w
      else
        var r := Registered(w.hub, w.clients[id], id, env);
        World(r.hub, w.clients[id := r.client])
    case Unregister(id, accepts) =>
      if id >= |w.clients| then w
      else
        var r := Unregistered(w.hub, w.clients[id], accepts);
        World(r.hub, w.clients[id := r.client])
    case OnBus(step) => w.(hub := w.hub.(bus := BusRuns.Apply(w.hub.bus, step)))
  }

  function Run(w: World, steps: seq<Step>): World
    decreases |steps|
  {
    if steps == [] then w else Run(Apply(w, steps[0]), steps[1..])
  }

  /** Only the registry may reset a device that a client owns. */
  predicate Legal(h: Hub, s: Step) {
    match s
    case OnBus(StatusReset(d, _)) => d !in h.owners
    case OnBus(StatusForgotten(d)) => d !in h.owners
    case _ => true
  }

  ghost predicate LegalRun(w: World, steps: seq<Step>)
    decreases |steps|
  {
    steps == [] || (Legal(w.hub, steps[0]) && LegalRun(Apply(w, steps[0]), steps[1..]))
  }

  /** The owner of a key is a registered client that has the key in its list. */
  ghost predicate KeysHeld(w: World) {
    forall a: Address :: a in w.hub.owners ==>
      var id := w.hub.owners[a];
      id < |w.clients| && w.clients[id].registered && a in w.clients[id].addresses.members
  }

  ghost predicate Registry(w: World) {
    KeysHandled(w.hub) && KeysHeld(w) && InStep(w.hub.bus) && UNREGISTERED !in w.hub.owners
  }

  lemma StreamedKeepsStatus(b: State, d: Address, newPath: PhysicalAddress, oldPath: PhysicalAddress)
    ensures Streamed(b, d, newPath, oldPath).status == b.status
  {
    var b' := if newPath != INVALID_PHYSICAL_ADDRESS then PowerChanged(b, d, On) else b;
    PowerNeverMovesTheSource(b, d, On);
    if FirstAt(b'.paths, newPath, 0).Some? {
      MarkedFacts(b', FirstAt(b'.paths, newPath, 0).value);
    }
  }

  lemma RoutedKeepsStatus(b: State, d: Address, route: PhysicalAddress)
    ensures Routed(b, d, route).status == b.status
  {
    var b' := PowerChanged(b, d, On);
    PowerNeverMovesTheSource(b, d, On);
    if FirstAt(b'.paths, route, 0).Some? {
      ActivatedFacts(b', FirstAt(b'.paths, route, 0).value, 0);
    }
  }

  /** No other step takes the status "handled" away. */
  lemma BusStepKeepsHandled(b: State, s: BusRuns.Step, a: Address)
    requires b.status[a] == Handled
    requires !(s == StatusForgotten(a)) && !(s.StatusReset? && s.d == a)
    ensures BusRuns.Apply(b, s).status[a] == Handled
  {
    match s
    case PowerReported(d, p) => PowerNeverMovesTheSource(b, d, p);
    case SourceActivated(d, delay) => ActivatedFacts(b, d, delay);
    case SourceRetried(d, woken) => HandlerRunFacts(b, d, true, woken);
    case SourceMarked(d) => MarkedFacts(b, d);
    case SourceUnmarked(d, _) =>
    case StatusReset(d, _) => PowerNeverMovesTheSource(b, d, UnknownPower);
    case StatusForgotten(d) => PowerNeverMovesTheSource(b, d, UnknownPower);
    case DevicePolled(d, acked) => PowerNeverMovesTheSource(b, d, UnknownPower);
    case CommandSeen(d) =>
    case AddressTried(d, acked) => PowerNeverMovesTheSource(b, d, On);
    case PathStreamed(d, newPath, oldPath) => StreamedKeepsStatus(b, d, newPath, oldPath);
    case RouteChanged(d, route) => RoutedKeepsStatus(b, d, route);
    case PathReported(d, p) =>
    case ClientMoved(owned, p, client, processor) => MovedKeepsTheSource(b, owned, p, client, processor);
    case TvHandlerReplaced(handler) =>
  }

  /** Nobody else owns what this client registers for, and it owns nothing when that fails. */
  lemma RegisterKeepsHeld(w: World, id: nat, env: Env)
    requires KeysHeld(w) && id < |w.clients|
    ensures KeysHeld(Apply(w, Register(id, env)))
  {
    var c := w.clients[id];
    if Starts(c, env) {
      ClearedFacts(w.hub, c, env);
      if env.sourceSupported {
        var got := RegisteredFacts(w.hub, c, id, env);
      }
    }
  }

  lemma UnregisterKeepsHeld(w: World, id: nat, accepts: bool)
    requires KeysHeld(w) && id < |w.clients|
    ensures KeysHeld(Apply(w, Unregister(id, accepts)))
  {
    UnregisteredFacts(w.hub, w.clients[id], accepts);
  }

  lemma StepKeepsRegistry(w: World, s: Step)
    requires Registry(w) && Legal(w.hub, s)
    ensures Registry(Apply(w, s))
  {
    match s
    case Register(id, env) =>
      if id < |w.clients| {
        RegisteredKeeps(w.hub, w.clients[id], id, env);
        RegisterKeepsHeld(w, id, env);
      }
    case Unregister(id, accepts) =>
      if id < |w.clients| {
        UnregisteredFacts(w.hub, w.clients[id], accepts);
        UnregisterKeepsHeld(w, id, accepts);
      }
    case OnBus(step) =>
      StepKeepsInStep(w.hub.bus, step);
      forall a: Address | a in w.hub.owners && a != TV
        ensures BusRuns.Apply(w.hub.bus, step).status[a] == Handled
      {
        BusStepKeepsHandled(w.hub.bus, step, a);
      }
  }

  /** Over every run: keys are handled devices, held by registered clients, and the adapter is in step. */
  lemma {:induction false} RunKeepsRegistry(w: World, steps: seq<Step>)
    requires Registry(w) && LegalRun(w, steps)
    ensures Registry(Run(w, steps))
    decreases |steps|
  {
    if steps != [] {
      StepKeepsRegistry(w, steps[0]);
      RunKeepsRegistry(Apply(w, steps[0]), steps[1..]);
    }
  }

  /** The adapter takes the mask, and no client that is not registered still lists a key. */
  predicate Tidy(w: World, s: Step) {
    match s
    case Register(id, env) =>
      env.accepts && (id < |w.clients| ==>
            w.clients[id].registered || w.clients[id].addresses.members !! w.hub.owners.Keys)
    case Unregister(_, accepts) => accepts
    case OnBus(_) => true
  }

  ghost predicate TidyRun(w: World, steps: seq<Step>)
    decreases |steps|
  {
    steps == [] || (Tidy(w, steps[0]) && TidyRun(Apply(w, steps[0]), steps[1..]))
  }

  lemma {:induction false} RunKeepsTheMask(w: World, steps: seq<Step>)
    requires MaskIsKeys(w.hub) && TidyRun(w, steps)
    ensures MaskIsKeys(Run(w, steps).hub)
    decreases |steps|
  {
    if steps != [] {
      match steps[0] {
        case Register(id, env) =>
          if id < |w.clients| {
            MaskAfterRegistering(w.hub, w.clients[id], id, env);
          }
        case Unregister(id, accepts) =>
          if id < |w.clients| {
            UnregisteredFacts(w.hub, w.clients[id], accepts);
          }
        case OnBus(step) =>
      }
      RunKeepsTheMask(Apply(w, steps[0]), steps[1..]);
    }
  }

  predicate Accepted(s: Step) {
    (s.Register? ==> s.env.accepts) && (s.Unregister? ==> s.accepts)
  }

  /** One client on its own has no stale list: the mask follows the keys in every run. */
  lemma {:induction false} OneClientKeepsTheMask(w: World, steps: seq<Step>)
    requires Registry(w) && MaskIsKeys(w.hub) && |w.clients| == 1
    requires LegalRun(w, steps) && forall i :: 0 <= i < |steps| ==> Accepted(steps[i])
    ensures MaskIsKeys(Run(w, steps).hub)
    decreases |steps|
  {
    if steps != [] {
      var s := steps[0];
      assert Accepted(s) && Tidy(w, s);
      assert TidyRun(w, [s]) by {
        assert [s][1..] == [];
      }
      RunKeepsTheMask(w, [s]);
      assert Run(w, [s]) == Apply(w, s) by {
        assert [s][1..] == [];
      }
      StepKeepsRegistry(w, s);
      OneClientKeepsTheMask(Apply(w, s), steps[1..]);
    }
  }

  /** Before any client was registered. */
  function Fresh(handler: TvHandler, allowed: bool, clients: seq<Client>): World {
    World(Hub(Initial(handler, allowed), map[], NO_ADDRESSES), clients)
  }

  /** The primary address of the mask is the smallest owned one, and "unregistered" when none is owned. */
  ghost predicate PrimaryIsSmallest(h: Hub) {
    && (h.mask.primary == UNREGISTERED <==> h.owners.Keys == {})
    && (h.owners.Keys != {} ==>
          h.mask.primary in h.owners && forall a :: a in h.owners ==> h.mask.primary <= a)
  }

  /** Every run from the start, of any clients and any TV. */
  lemma RunFromTheStart(handler: TvHandler, allowed: bool, clients: seq<Client>, steps: seq<Step>)
    requires LegalRun(Fresh(handler, allowed, clients), steps)
    ensures var w := Run(Fresh(handler, allowed, clients), steps);
            && Registry(w)
            && (TidyRun(Fresh(handler, allowed, clients), steps) ==> MaskIsKeys(w.hub) && PrimaryIsSmallest(w.hub))
  {
    var w := Fresh(handler, allowed, clients);
    RunKeepsRegistry(w, steps);
    if TidyRun(w, steps) {
      assert w.hub.owners.Keys == {};
      MaskPrimary({});
      RunKeepsTheMask(w, steps);
      MaskPrimary(Run(w, steps).hub.owners.Keys);
    }
  }

  // ---------- leaked addresses ----------

  /** The steps that reset a device: it is in the list that is unregistered, or its status is forgotten. */
  predicate Resets(w: World, s: Step, a: Address) {
    match s
    case Register(id, env) =>
      && id < |w.clients| && Starts(w.clients[id], env)
      && w.clients[id].registered && a in w.clients[id].addresses.members
    case Unregister(id, _) => id < |w.clients| && a in w.clients[id].addresses.members
    case OnBus(step) => step == StatusForgotten(a) || (step.StatusReset? && step.d == a)
  }

  lemma RegisteredKeepsLeaks(h: Hub, c: Client, id: nat, env: Env, a: Address)
    requires Leaked(h, a) && a != TV && !(Starts(c, env) && c.registered && a in c.addresses.members)
    ensures Leaked(Registered(h, c, id, env).hub, a)
  {
    if Starts(c, env) {
      ClearedFacts(h, c, env);
      if env.sourceSupported {
        var got := RegisteredFacts(h, c, id, env);
        GotWasFree(Cleared(h, c, env).hub.bus, env.acks, Supported(c.types, env.panasonic), got);
        assert a !in got;
      }
    }
  }

  /**
   A leaked address stays leaked over the steps that do not reset it, and no client gets it. A reset
   ends the leak; only a registration can reset it and leak it again.
   */
  lemma StepAndLeaks(w: World, s: Step, a: Address)
    requires Leaked(w.hub, a) && a != TV && a != UNREGISTERED
    ensures !Resets(w, s, a) ==> Leaked(Apply(w, s).hub, a)
    ensures Resets(w, s, a) && !s.Register? ==> !Leaked(Apply(w, s).hub, a)
  {
    match s
    case Register(id, env) =>
      if id < |w.clients| && !Resets(w, s, a) {
        RegisteredKeepsLeaks(w.hub, w.clients[id], id, env, a);
      }
    case Unregister(id, accepts) =>
      if id < |w.clients| {
        UnregisteredFacts(w.hub, w.clients[id], accepts);
      }
    case OnBus(step) =>
      if !Resets(w, s, a) {
        BusStepKeepsHandled(w.hub.bus, step, a);
      }
  }

  ghost predicate NeverResets(w: World, steps: seq<Step>, a: Address)
    decreases |steps|
  {
    steps == [] || (!Resets(w, steps[0], a) && NeverResets(Apply(w, steps[0]), steps[1..], a))
  }

  /** Over every run that never resets it, a leaked address is out of reach, whoever polls or registers. */
  lemma {:induction false} LeakLasts(w: World, steps: seq<Step>, a: Address)
    requires Leaked(w.hub, a) && a != TV && a != UNREGISTERED && NeverResets(w, steps, a)
    ensures Leaked(Run(w, steps).hub, a) && forall acks: set<Address> :: !Free(Run(w, steps).hub.bus, acks, a)
    decreases |steps|
  {
    if steps != [] {
      StepAndLeaks(w, steps[0], a);
      LeakLasts(Apply(w, steps[0]), steps[1..], a);
    }
  }

  const PLAYBACK_AND_AUDIO: Slots := [PlaybackDevice, AudioSystem, Reserved, Reserved, Reserved]

  lemma PlaybackAndAudio()
    ensures Supported(PLAYBACK_AND_AUDIO, false) == [PlaybackDevice, AudioSystem]
  {
    var s := PLAYBACK_AND_AUDIO;
    assert s[..5] == s && s[..5][..4] == s[..4] && s[..4][..3] == s[..3];
    assert s[..3][..2] == s[..2] && s[..2][..1] == s[..1] && s[..1] == [PlaybackDevice];
    assert Supported(s[..1][..0], false) == [];
    assert Supported(s[..1], false) == [PlaybackDevice];
    assert Supported(s[..2], false) == [PlaybackDevice, AudioSystem];
    assert Supported(s[..3], false) == Supported(s[..2], false);
    assert Supported(s[..4], false) == Supported(s[..3], false);
  }

  lemma PlaybackWithoutAudio(b: State, got: seq<Address>)
    requires Free(b, {AUDIO_SYSTEM}, PLAYBACK_DEVICE1)
    requires Fair(b, {AUDIO_SYSTEM}, [PlaybackDevice, AudioSystem], got)
    ensures got == [PLAYBACK_DEVICE1]
  {
    var types := [PlaybackDevice, AudioSystem];
    assert types[1] in types && Exhausted(b, {AUDIO_SYSTEM}, types[1]);
    FairIsComplete(b, {AUDIO_SYSTEM}, types, got);
    assert GetType(PLAYBACK_DEVICE1) == PlaybackDevice;
    assert !Exhausted(b, {AUDIO_SYSTEM}, PlaybackDevice);
    assert Deserves(b, {AUDIO_SYSTEM}, types[0], got[0]);
  }

  /** A playback device with an audio system, on a bus that has one: the playback address leaks. */
  lemma FailureLeaksOnce()
    ensures var c := Client(false, PLAYBACK_AND_AUDIO, NO_ADDRESSES, DEFAULT_PHYSICAL_ADDRESS, false, false);
            var r := Registered(Hub(BusRuns.START, map[], NO_ADDRESSES), c, 0,
                     Env(true, true, true, false, {AUDIO_SYSTEM}));
            && !r.ok && !HandledOwned(r.hub)
            && r.client.addresses.members == {PLAYBACK_DEVICE1} && Leaked(r.hub, PLAYBACK_DEVICE1)
  {
    var c := Client(false, PLAYBACK_AND_AUDIO, NO_ADDRESSES, DEFAULT_PHYSICAL_ADDRESS, false, false);
    var h := Hub(BusRuns.START, map[], NO_ADDRESSES);
    var env := Env(true, true, true, false, {AUDIO_SYSTEM});
    PlaybackAndAudio();
    var got := RegisteredFacts(h, c, 0, env);
    PlaybackWithoutAudio(h.bus, got);
    assert PLAYBACK_DEVICE1 in got;
  }

  // ---------- two clients: an old list takes an address away ----------

  const PLAYBACK_ONLY: Slots := [PlaybackDevice, Reserved, Reserved, Reserved, Reserved]

  const NEW_CLIENT := Client(false, PLAYBACK_ONLY, NO_ADDRESSES, DEFAULT_PHYSICAL_ADDRESS, false, false)

  const QUIET := Env(true, true, true, false, {})

  lemma PlaybackOnly()
    ensures Supported(PLAYBACK_ONLY, false) == [PlaybackDevice]
    ensures SlotsOf([PlaybackDevice]) == PLAYBACK_ONLY
  {
    var s := PLAYBACK_ONLY;
    assert s[..5] == s && s[..5][..4] == s[..4] && s[..4][..3] == s[..3];
    assert s[..3][..2] == s[..2] && s[..2][..1] == s[..1] && s[..1] == [PlaybackDevice];
    assert Supported(s[..1][..0], false) == [];
    assert Supported(s[..1], false) == [PlaybackDevice];
    assert Supported(s[..2], false) == Supported(s[..1], false);
    assert Supported(s[..3], false) == Supported(s[..2], false);
    assert Supported(s[..4], false) == Supported(s[..3], false);
    assert [PlaybackDevice] + NO_TYPES[..4] == PLAYBACK_ONLY;
  }

  lemma OnlyPlayback(b: State, got: seq<Address>)
    requires Free(b, {}, PLAYBACK_DEVICE1) && Fair(b, {}, [PlaybackDevice], got)
    ensures got == [PLAYBACK_DEVICE1]
  {
    assert GetType(PLAYBACK_DEVICE1) == PlaybackDevice;
    assert !Exhausted(b, {}, PlaybackDevice);
    assert Deserves(b, {}, PlaybackDevice, got[0]);
  }

  /** A playback device gets the first address of its type, when that is free. */
  lemma GetsTheFirst(h: Hub, c: Client, id: nat)
    requires c.types == PLAYBACK_ONLY && !c.monitorOnly && !c.registered && Free(h.bus, {}, PLAYBACK_DEVICE1)
    ensures var r := Registered(h, c, id, QUIET);
            && r.ok && r.client.registered && r.client.addresses.members == {PLAYBACK_DEVICE1}
            && r.hub.owners == Claimed(h.owners - c.addresses.members, {PLAYBACK_DEVICE1}, id)
            && r.hub.bus.status[PLAYBACK_DEVICE1] == Handled
  {
    PlaybackOnly();
    var got := RegisteredFacts(h, c, id, QUIET);
    OnlyPlayback(h.bus, got);
    assert PLAYBACK_DEVICE1 in got;
    assert Succeeds(h, c, QUIET);
  }

  lemma StaysAPlaybackClient(h: Hub, id: nat)
    ensures var c := Registered(h, NEW_CLIENT, id, QUIET).client;
            c.types == PLAYBACK_ONLY && !c.monitorOnly
  {
    PlaybackOnly();
    AllocatesExactlyWhen(h, NEW_CLIENT, id, QUIET);
  }

  /**
   One client registers and unregisters, another gets its address, the first registers again: the
   second client is still registered and lists the address, but it no longer owns it.
   */
  lemma StaleListTakesAnAddress(h: Hub)
    requires Free(h.bus, {}, PLAYBACK_DEVICE1)
    ensures var r1 := Registered(h, NEW_CLIENT, 0, QUIET);
            var r2 := Unregistered(r1.hub, r1.client, true);
            var r3 := Registered(r2.hub, NEW_CLIENT, 1, QUIET);
            var r4 := Registered(r3.hub, r2.client, 0, QUIET);
            && r3.ok && r3.client.registered && PLAYBACK_DEVICE1 in r3.client.addresses.members
            && PLAYBACK_DEVICE1 in r3.hub.owners && r3.hub.owners[PLAYBACK_DEVICE1] == 1
            && PLAYBACK_DEVICE1 !in r4.hub.owners && r4.hub.bus.status[PLAYBACK_DEVICE1] == Handled
  {
    GetsTheFirst(h, NEW_CLIENT, 0);
    var r1 := Registered(h, NEW_CLIENT, 0, QUIET);
    UnregisteredFacts(r1.hub, r1.client, true);
    var r2 := Unregistered(r1.hub, r1.client, true);
    GetsTheFirst(r2.hub, NEW_CLIENT, 1);
    var r3 := Registered(r2.hub, NEW_CLIENT, 1, QUIET);
    StaysAPlaybackClient(h, 0);
    PlaybackOnly();
    var got := RegisteredFacts(r3.hub, r2.client, 0, QUIET);
    GotWasFree(r3.hub.bus, {}, [PlaybackDevice], got);
  }
}
