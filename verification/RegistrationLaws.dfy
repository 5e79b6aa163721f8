/** What a registration does to single addresses, to the mask and to the source, in values. */
module RegistrationLaws {
  import opened CecTypes
  import opened Bus
  import opened BusRuns
  import opened BusLaws
  import opened Allocation
  import opened Registration

  /** The first checks: they change nothing, and a client that only monitors needs nothing else. */
  lemma FirstChecks(h: Hub, c: Client, id: nat, env: Env)
    requires c.monitorOnly || !env.initialised
    ensures Registered(h, c, id, env) == Outcome(h, c, c.monitorOnly)
  {
  }

  /** Without a source address in the adapter it fails, and a registered client is unregistered by then. */
  lemma WithoutSource(h: Hub, c: Client, id: nat, env: Env)
    requires !c.monitorOnly && env.initialised && !env.sourceSupported
    ensures var r := Registered(h, c, id, env);
            && !r.ok && r.client == (if c.registered then c.(registered := false, initialised := false) else c)
            && r.hub.owners == (if c.registered then h.owners - c.addresses.members else h.owners)
            && (!c.registered ==> r.hub == h)
  {
  }

  // ---------- addresses and their owners ----------

  lemma {:induction false} ResetAllPaths(b: State, members: set<Address>, i: nat)
    requires i <= 16
    ensures ResetAll(b, members, i).paths == b.paths
    decreases 16 - i
  {
    if i < 16 {
      if i in members {
        ResetForgets(b, i, true);
      }
      ResetAllPaths(if i in members then Reset(b, i, true) else b, members, i + 1);
    }
  }

  lemma WithAddressesPaths(h: Hub, c: Client, id: nat, env: Env)
    requires WithAddresses(h, c, id, env).ok
    ensures var r := WithAddresses(h, c, id, env);
            forall a: Address :: r.hub.bus.paths[a] ==
              if a in r.client.addresses.members && 0x1000 <= c.physical <= 0xFFFE then c.physical
              else h.bus.paths[a]
  {
    SupportedTypes(c.types, env.panasonic);
    var got := AllocationIsFirstFit(h.bus, env.acks, Supported(c.types, env.panasonic));
  }

  /** Each address of a client that was registered has the client's physical address, if that is valid. */
  lemma RegisteredIsPlaced(h: Hub, c: Client, id: nat, env: Env)
    requires !c.monitorOnly && Registered(h, c, id, env).ok
    ensures var r := Registered(h, c, id, env);
            forall a: Address :: r.hub.bus.paths[a] ==
              if a in r.client.addresses.members && 0x1000 <= c.physical <= 0xFFFE then c.physical
              else h.bus.paths[a]
  {
    var start := Cleared(h, c, env);
    ResetAllPaths(h.bus, c.addresses.members, 0);
    WithAddressesPaths(start.hub, start.client.(initialised := false), id, env);
  }

  /**
   It owns every address it lists, and no other. What others own that it did not list before stays theirs.
   */
  lemma RegisteredOwnsItsAddresses(h: Hub, c: Client, id: nat, env: Env)
    requires !c.monitorOnly && Registered(h, c, id, env).ok
    ensures var r := Registered(h, c, id, env);
            var mine := r.client.addresses.members;
            && (forall a :: a in mine ==> a in r.hub.owners && r.hub.owners[a] == id)
            && (forall a: Address :: a !in mine ==>
                  (a in r.hub.owners <==> a in h.owners && a !in c.addresses.members)
                  && (a in r.hub.owners ==> r.hub.owners[a] == h.owners[a]))
            && (forall a :: a in mine && a != 0 ==> r.hub.bus.status[a] == Handled)
  {
    var got := RegisteredFacts(h, c, id, env);
    ClearedFacts(h, c, env);
  }

  /** Both flags say whether it worked, and the slots hold the types that were asked for, in order. */
  lemma RegisteredClient(h: Hub, c: Client, id: nat, env: Env)
    requires Starts(c, env) && env.sourceSupported
    ensures var r := Registered(h, c, id, env);
            var types := Supported(c.types, env.panasonic);
            && r.client.registered == r.ok && r.client.initialised == r.ok
            && r.client.physical == c.physical && !r.client.monitorOnly
            && forall i :: 0 <= i < 5 ==> r.client.types[i] == if i < |types| then types[i] else Reserved
  {
    AllocatesExactlyWhen(h, c, id, env);
    ClearedFacts(h, c, env);
  }

  // ---------- the mask ----------

  /** The mask names exactly these addresses, and the smallest of them is its primary. */
  predicate Names(mask: Addresses, keys: set<Address>) {
    && mask.members == keys
    && (if keys == {} then mask.primary == 15 else mask.primary in keys && forall k :: k in keys ==> mask.primary <= k)
  }

  lemma MaskNames(keys: set<Address>)
    requires UNREGISTERED !in keys
    ensures Names(MaskOf(keys), keys)
  {
    MaskPrimary(keys);
  }

  /** After a successful registration the adapter has the mask of all owned addresses, if it takes masks. */
  lemma MaskAfterSuccess(h: Hub, c: Client, id: nat, env: Env)
    requires !c.monitorOnly && Registered(h, c, id, env).ok && UNREGISTERED !in h.owners
    ensures var r := Registered(h, c, id, env);
            if env.accepts then Names(r.hub.mask, r.hub.owners.Keys) else r.hub.mask == h.mask
  {
    var got := RegisteredFacts(h, c, id, env);
    ClearedFacts(h, c, env);
    RegisteredKeeps(h, c, id, env);
    MaskNames(Registered(h, c, id, env).hub.owners.Keys);
  }

  /** After a failed one it has the mask of the addresses that were owned before the client's were erased. */
  lemma MaskAfterFailure(h: Hub, c: Client, id: nat, env: Env)
    requires Starts(c, env) && env.sourceSupported && !Registered(h, c, id, env).ok && UNREGISTERED !in h.owners
    ensures var r := Registered(h, c, id, env);
            var before := if c.registered then h.owners - c.addresses.members else h.owners;
            if env.accepts then Names(r.hub.mask, before.Keys)
            else r.hub.mask == h.mask
  {
    var got := RegisteredFacts(h, c, id, env);
    ClearedFacts(h, c, env);
    MaskNames(Cleared(h, c, env).hub.owners.Keys);
  }

  // ---------- the source ----------

  lemma {:induction false} ResetAllTells(b: State, members: set<Address>, i: nat)
    requires i <= 16
    ensures var c := ResetAll(b, members, i);
            if b.source.Some? && b.source.value in members && i <= b.source.value then
              && c.source == None
              && c.told == b.told + if b.status[b.source.value] == Handled then [Told(false, true)] else []
            else c.source == b.source && c.told == b.told
    decreases 16 - i
  {
    if i < 16 {
      if i in members {
        ResetForgets(b, i, true);
      }
      ResetAllTells(if i in members then Reset(b, i, true) else b, members, i + 1);
    }
  }

  /** Unregistering a client with the source tells the adapter once that it is lost because of that. */
  lemma UnregisteringTells(h: Hub, c: Client, accepts: bool)
    ensures var b, r := h.bus, Unregistered(h, c, accepts).hub.bus;
            if b.source.Some? && b.source.value in c.addresses.members then
              && r.source == None
              && r.told == b.told + if b.status[b.source.value] == Handled then [Told(false, true)] else []
            else r.source == b.source && r.told == b.told
  {
    ResetAllTells(h.bus, c.addresses.members, 0);
  }

  // ---------- types ----------

  /** A Panasonic TV gets a playback device for a recording one; anything else is asked for as it is. */
  lemma TypesAskedFor(slots: seq<DeviceType>, panasonic: bool, t: DeviceType)
    ensures t in Supported(slots, panasonic) <==>
            && t != Reserved
            && if !panasonic then t in slots
               else t != RecordingDevice && (t in slots || (t == PlaybackDevice && RecordingDevice in slots))
  {
    SupportedTypes(slots, panasonic);
    if t in slots {
      var i :| 0 <= i < |slots| && slots[i] == t;
    }
    if RecordingDevice in slots {
      var i :| 0 <= i < |slots| && slots[i] == RecordingDevice;
    }
  }

  /** The first slot, unless it is empty, makes the first type, and so the primary address. */
  lemma {:induction false} FirstSlotFirst(slots: seq<DeviceType>, panasonic: bool)
    requires slots != [] && slots[0] != Reserved
    ensures Supported(slots, panasonic) != []
    ensures Supported(slots, panasonic)[0] ==
            if panasonic && slots[0] == RecordingDevice then PlaybackDevice else slots[0]
  {
    if |slots| > 1 {
      FirstSlotFirst(slots[..|slots| - 1], panasonic);
    } else {
      assert Supported(slots[..0], panasonic) == [];
    }
  }
}
