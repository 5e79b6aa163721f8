/** How a client finds its logical addresses: one for each of its device types, first fit. */
module Allocation {
  import opened CecTypes
  import opened Bus
  import opened BusRuns

  /** cec_logical_addresses: the addresses that are set, and the first one that was. */
  datatype Addresses = Addresses(primary: Address, members: set<Address>)

  const NO_ADDRESSES := Addresses(UNREGISTERED, {})

  function WithAddress(list: Addresses, a: Address): Addresses {
    Addresses(if list.primary == UNREGISTERED then a else list.primary, list.members + {a})
  }

  // ---------- the types a client asks for ----------

  /** cec_device_type_list: five slots, of which a reserved one is empty. */
  type Slots = s: seq<DeviceType> | |s| == 5 witness seq(5, _ => Reserved)

  const NO_TYPES: Slots := [Reserved, Reserved, Reserved, Reserved, Reserved]

  /** What the handler of a Panasonic TV puts in place of a type, and any other handler keeps. */
  function Replacement(panasonic: bool, t: DeviceType): DeviceType {
    if panasonic && t == RecordingDevice then PlaybackDevice else t
  }

  /** The types in the slots, without the empty ones and without repetitions. */
  function Supported(slots: seq<DeviceType>, panasonic: bool): (types: seq<DeviceType>)
    ensures |types| <= |slots|
  {
    if slots == [] then []
    else
      var front := Supported(slots[..|slots| - 1], panasonic);
      var t := slots[|slots| - 1];
      if t == Reserved || Replacement(panasonic, t) in front then front
      else front + [Replacement(panasonic, t)]
  }

  /** Back in five slots. */
  function SlotsOf(types: seq<DeviceType>): Slots
    requires |types| <= 5
  {
    types + NO_TYPES[..5 - |types|]
  }

  ghost predicate Distinct<T(!new)>(s: seq<T>) {
    forall i, j :: 0 <= i < j < |s| ==> s[i] != s[j]
  }

  lemma {:induction false} SupportedTypes(slots: seq<DeviceType>, panasonic: bool)
    ensures var types := Supported(slots, panasonic);
            && Distinct(types) && Reserved !in types
            && (panasonic ==> RecordingDevice !in types)
            && forall t :: t in types <==>
                 exists i :: 0 <= i < |slots| && slots[i] != Reserved && t == Replacement(panasonic, slots[i])
  {
    if slots != [] {
      var n := |slots| - 1;
      SupportedTypes(slots[..n], panasonic);
      var types, front := Supported(slots, panasonic), Supported(slots[..n], panasonic);
      forall t
        ensures t in types <==>
                exists i :: 0 <= i < |slots| && slots[i] != Reserved && t == Replacement(panasonic, slots[i])
      {
        assert t in front <==>
               exists i :: 0 <= i < |slots[..n]| && slots[..n][i] != Reserved
                           && t == Replacement(panasonic, slots[..n][i]);
        assert t in types <==> t in front || (slots[n] != Reserved && t == Replacement(panasonic, slots[n]));
      }
    }
  }

  // ---------- first fit ----------

  /** The addresses of a type, in the order in which they are tried. */
  function Order(t: DeviceType): seq<Address> {
    match t
    case RecordingDevice => [RECORDING_DEVICE1, RECORDING_DEVICE2, RECORDING_DEVICE3]
    case Tuner => [TUNER1, TUNER2, TUNER3, TUNER4]
    case PlaybackDevice => [PLAYBACK_DEVICE1, PLAYBACK_DEVICE2, PLAYBACK_DEVICE3]
    case AudioSystem => [AUDIO_SYSTEM]
    case _ => []
  }

  /** Neither present nor ours, and silent when polled. acks are the addresses that answer a poll. */
  predicate Free(b: State, acks: set<Address>, a: Address) {
    b.status[a] != Present && b.status[a] != Handled && a !in acks
  }

  datatype Trial = Trial(bus: State, address: Option<Address>)

  /** Tries the addresses in turn: polls one after the other until one is silent. */
  function FirstFit(b: State, acks: set<Address>, order: seq<Address>): Trial
    decreases |order|
  {
    if order == [] then Trial(b, None)
    else
      var b' := Tried(b, order[0], order[0] in acks);
      if Available(b, order[0], order[0] in acks) then Trial(b', Some(order[0]))
      else FirstFit(b', acks, order[1..])
  }

  /** The TV needs no poll. */
  function TypeTrial(b: State, acks: set<Address>, t: DeviceType): Trial {
    if t == TvType then Trial(b, Some(TV)) else FirstFit(b, acks, Order(t))
  }

  datatype Allocated = Allocated(bus: State, list: Addresses, ok: bool)

  function Allocate(b: State, acks: set<Address>, list: Addresses, types: seq<DeviceType>): Allocated
    decreases |types|
  {
    if types == [] then Allocated(b, list, true)
    else
      var trial := TypeTrial(b, acks, types[0]);
      match trial.address
      case None => Allocated(trial.bus, list, false)
      case Some(a) => Allocate(trial.bus, acks, WithAddress(list, a), types[1..])
  }

  // ---------- what it must find, without a step of it ----------

  predicate IsFirstFree(b: State, acks: set<Address>, order: seq<Address>, a: Address) {
    exists i :: 0 <= i < |order| && order[i] == a && Free(b, acks, a)
      && forall j :: 0 <= j < i ==> !Free(b, acks, order[j])
  }

  /** What type t should get on bus b: address 0 for a TV, or the smallest address of the type that is free. */
  predicate Deserves(b: State, acks: set<Address>, t: DeviceType, a: Address) {
    && t != Reserved
    && if t == TvType then a == 0
       else GetType(a) == t && Free(b, acks, a)
            && forall x: Address :: GetType(x) == t && x < a ==> !Free(b, acks, x)
  }

  /** No address of the type is free. */
  predicate Exhausted(b: State, acks: set<Address>, t: DeviceType) {
    t != TvType && forall a: Address :: GetType(a) == t ==> !Free(b, acks, a)
  }

  /** The statuses moved only as trying the addresses in order may move them. */
  ghost predicate TriedOnly(b: State, b': State, order: seq<Address>, taken: Option<Address>) {
    && b'.paths == b.paths && (InStep(b) ==> InStep(b'))
    && forall x: Address ::
         && (x !in order ==> b'.status[x] == b.status[x])
         && (b.status[x] == Present || b.status[x] == Handled ==> b'.status[x] == b.status[x])
         && (b'.status[x] == Handled <==> b.status[x] == Handled || taken == Some(x))
  }

  lemma TriedFacts(b: State, d: Address, acked: bool)
    requires d != TV && d != UNREGISTERED
    ensures var b' := Tried(b, d, acked);
            && TriedOnly(b, b', [d], if Available(b, d, acked) then Some(d) else None)
            && (b'.status[d] == Present || b'.status[d] == Handled)
  {
    if InStep(b) {
      StepKeepsInStep(b, AddressTried(d, acked));
    }
    PowerNeverMovesTheSource(b, d, On);
  }

  lemma FirstFreeAfter(b: State, b': State, acks: set<Address>, order: seq<Address>, a: Address)
    requires order != [] && !Free(b, acks, order[0]) && IsFirstFree(b', acks, order[1..], a)
    requires forall x :: x in order[1..] ==> (Free(b', acks, x) <==> Free(b, acks, x))
    ensures IsFirstFree(b, acks, order, a)
  {
    var rest := order[1..];
    var i :| 0 <= i < |rest| && rest[i] == a && Free(b', acks, a)
             && forall j :: 0 <= j < i ==> !Free(b', acks, rest[j]);
    forall j | 0 <= j < i + 1
      ensures !Free(b, acks, order[j])
    {
      if j > 0 {
        assert rest[j - 1] == order[j];
      }
    }
    assert order[i + 1] == a;
  }

  lemma {:induction false} FirstFitFinds(b: State, acks: set<Address>, order: seq<Address>)
    requires Distinct(order) && TV !in order && UNREGISTERED !in order
    ensures var r := FirstFit(b, acks, order);
            && TriedOnly(b, r.bus, order, r.address)
            && (r.address.Some? ==> IsFirstFree(b, acks, order, r.address.value))
            && (r.address.None? ==> forall a :: a in order ==>
                  !Free(b, acks, a) && (r.bus.status[a] == Present || r.bus.status[a] == Handled))
    decreases |order|
  {
    if order != [] {
      var d, rest := order[0], order[1..];
      var b' := Tried(b, d, d in acks);
      TriedFacts(b, d, d in acks);
      if !Available(b, d, d in acks) {
        FirstFitFinds(b', acks, rest);
        var r := FirstFit(b', acks, rest);
        forall a | a in rest
          ensures Free(b', acks, a) <==> Free(b, acks, a)
        {
          var k :| 0 <= k < |rest| && rest[k] == a;
          assert order[k + 1] == a;
        }
        if r.address.Some? {
          FirstFreeAfter(b, b', acks, order, r.address.value);
        }
      }
    }
  }

  /** The addresses that the standard gives to each type. */
  lemma TypesOfAddresses(a: Address)
    ensures GetType(a) == TvType <==> a == 0
    ensures GetType(a) == RecordingDevice <==> a == 1 || a == 2 || a == 9
    ensures GetType(a) == Tuner <==> a == 3 || a == 6 || a == 7 || a == 10
    ensures GetType(a) == PlaybackDevice <==> a == 4 || a == 8 || a == 11
    ensures GetType(a) == AudioSystem <==> a == 5
  {
  }

  /** All addresses of a type are tried, and no others, from the smallest to the largest. */
  lemma OrderTypes(t: DeviceType)
    ensures Distinct(Order(t)) && TV !in Order(t) && UNREGISTERED !in Order(t)
    ensures t != TvType && t != Reserved ==> forall a: Address :: GetType(a) == t <==> a in Order(t)
    ensures t == TvType || t == Reserved ==> Order(t) == []
    ensures forall i, j :: 0 <= i < j < |Order(t)| ==> Order(t)[i] < Order(t)[j]
  {
  }

  /** So the first that is free is the smallest of the type. */
  lemma FirstIsSmallest(b: State, acks: set<Address>, t: DeviceType, a: Address)
    requires t != TvType && t != Reserved && IsFirstFree(b, acks, Order(t), a)
    ensures Deserves(b, acks, t, a)
  {
    OrderTypes(t);
    var order := Order(t);
    var i :| 0 <= i < |order| && order[i] == a && forall j :: 0 <= j < i ==> !Free(b, acks, order[j]);
    assert a in order;
    forall x: Address | GetType(x) == t && x < a
      ensures !Free(b, acks, x)
    {
      assert x in order;
      var j :| 0 <= j < |order| && order[j] == x;
    }
  }

  /** The trial of another type changes nothing that matters to type t. */
  lemma OthersUntouched(b: State, b': State, acks: set<Address>, other: DeviceType,
                        taken: Option<Address>, t: DeviceType)
    requires t != other && t != Reserved && TriedOnly(b, b', Order(other), taken)
    ensures forall a: Address :: GetType(a) == t ==> b'.status[a] == b.status[a]
    ensures forall a :: Deserves(b', acks, t, a) ==> Deserves(b, acks, t, a)
    ensures Exhausted(b', acks, t) ==> Exhausted(b, acks, t)
  {
    OrderTypes(other);
    forall a: Address | GetType(a) == t
      ensures b'.status[a] == b.status[a] && (Free(b', acks, a) <==> Free(b, acks, a))
    {
      assert a !in Order(other);
    }
  }

  /** The outcome for the types from index k on: got are the addresses of those that found one. */
  ghost predicate Fair(b: State, acks: set<Address>, types: seq<DeviceType>, got: seq<Address>) {
    && |got| <= |types|
    && (forall i :: 0 <= i < |got| ==> Deserves(b, acks, types[i], got[i]) && GetType(got[i]) == types[i])
    && (|got| < |types| ==> Exhausted(b, acks, types[|got|]))
  }

  function Collected(list: Addresses, got: seq<Address>): Addresses
    decreases |got|
  {
    if got == [] then list else Collected(WithAddress(list, got[0]), got[1..])
  }

  lemma {:induction false} CollectedIs(list: Addresses, got: seq<Address>)
    requires UNREGISTERED !in got
    ensures Collected(list, got).members == list.members + set a | a in got
    ensures Collected(list, got).primary ==
            if list.primary != UNREGISTERED || got == [] then list.primary else got[0]
    decreases |got|
  {
    if got != [] {
      CollectedIs(WithAddress(list, got[0]), got[1..]);
      assert forall a :: a in got <==> a == got[0] || a in got[1..];
    }
  }

  lemma DeservedType(b: State, acks: set<Address>, t: DeviceType, a: Address)
    requires Deserves(b, acks, t, a)
    ensures GetType(a) == t && a != UNREGISTERED
  {
    OrderTypes(t);
  }

  lemma FairStep(b: State, b': State, acks: set<Address>, types: seq<DeviceType>, a: Address, later: seq<Address>)
    requires types != [] && Distinct(types) && Deserves(b, acks, types[0], a)
    requires TriedOnly(b, b', Order(types[0]), if types[0] == TvType then None else Some(a))
    requires Fair(b', acks, types[1..], later) && Reserved !in types
    ensures Fair(b, acks, types, [a] + later)
  {
    DeservedType(b, acks, types[0], a);
    var got := [a] + later;
    forall i | 0 < i < |got|
      ensures Deserves(b, acks, types[i], got[i]) && GetType(got[i]) == types[i]
    {
      assert types[1..][i - 1] == types[i] && got[i] == later[i - 1];
      OthersUntouched(b, b', acks, types[0], if types[0] == TvType then None else Some(a), types[i]);
    }
    if |got| < |types| {
      assert types[1..][|later|] == types[|got|];
      OthersUntouched(b, b', acks, types[0], if types[0] == TvType then None else Some(a), types[|got|]);
    }
  }

  lemma {:induction false} AllocateIsFair(b: State, acks: set<Address>, list: Addresses, types: seq<DeviceType>)
    returns (got: seq<Address>)
    requires Distinct(types) && Reserved !in types
    ensures var r := Allocate(b, acks, list, types);
            && Fair(b, acks, types, got) && r.list == Collected(list, got) && (r.ok <==> |got| == |types|)
            && r.bus.paths == b.paths && (InStep(b) ==> InStep(r.bus))
            && (forall x: Address :: r.bus.status[x] == Handled <==> b.status[x] == Handled || (x in got && x != TV))
            && (forall x: Address :: b.status[x] == Present ==> r.bus.status[x] == Present)
            && (!r.ok ==> forall a: Address :: GetType(a) == types[|got|] ==>
                 r.bus.status[a] == Present || r.bus.status[a] == Handled)
    decreases |types|
  {
    if types == [] {
      got := [];
      return;
    }
    var t, rest := types[0], types[1..];
    var trial := TypeTrial(b, acks, t);
    OrderTypes(t);
    if t != TvType {
      FirstFitFinds(b, acks, Order(t));
    }
    if trial.address.None? {
      got := [];
      return;
    }
    var a := trial.address.value;
    if t != TvType {
      FirstIsSmallest(b, acks, t, a);
    }
    DeservedType(b, acks, t, a);
    var later := AllocateIsFair(trial.bus, acks, WithAddress(list, a), rest);
    got := [a] + later;
    assert got[1..] == later;
    FairStep(b, trial.bus, acks, types, a, later);
    assert !Allocate(b, acks, list, types).ok ==> types[|got|] == rest[|later|];
  }

  /** Distinct types get distinct addresses. */
  lemma OneEach(b: State, acks: set<Address>, types: seq<DeviceType>, got: seq<Address>)
    requires Distinct(types) && Fair(b, acks, types, got)
    ensures Distinct(got) && UNREGISTERED !in got
  {
    forall i, j | 0 <= i < j < |got|
      ensures got[i] != got[j]
    {
      assert types[i] != types[j];
    }
    forall a | a in got
      ensures a != UNREGISTERED
    {
      var i :| 0 <= i < |got| && got[i] == a;
      DeservedType(b, acks, types[i], a);
    }
  }

  lemma {:induction false} CollectedCount(list: Addresses, got: seq<Address>)
    requires Distinct(got) && forall a :: a in got ==> a !in list.members
    ensures |Collected(list, got).members| == |list.members| + |got|
    decreases |got|
  {
    if got != [] {
      CollectedCount(WithAddress(list, got[0]), got[1..]);
    }
  }

  lemma FairIsComplete(b: State, acks: set<Address>, types: seq<DeviceType>, got: seq<Address>)
    requires Fair(b, acks, types, got)
    ensures |got| == |types| <==> forall t :: t in types ==> !Exhausted(b, acks, t)
  {
    if |got| == |types| {
      forall i | 0 <= i < |types|
        ensures !Exhausted(b, acks, types[i])
      {
        assert Deserves(b, acks, types[i], got[i]);
      }
    }
  }

  /**
   A client gets one address for each of its types when none of them is exhausted. Every address has
   the type it is for and, the TV aside, it is the first of its type that was free. The primary
   address is that of the first type. When a type is exhausted, the types before it keep what they
   got, and every address of the exhausted type is present or handled.
   */
  lemma AllocationIsFirstFit(b: State, acks: set<Address>, types: seq<DeviceType>) returns (got: seq<Address>)
    requires Distinct(types) && Reserved !in types
    ensures var r := Allocate(b, acks, NO_ADDRESSES, types);
            && (r.ok <==> forall t :: t in types ==> !Exhausted(b, acks, t))
            && Fair(b, acks, types, got) && (r.ok <==> |got| == |types|)
            && r.list.members == (set a | a in got) && |r.list.members| == |got|
            && r.list.primary == (if got == [] then UNREGISTERED else got[0])
            && UNREGISTERED !in r.list.members
            && r.bus.paths == b.paths && (InStep(b) ==> InStep(r.bus))
            && (forall x: Address :: r.bus.status[x] == Handled <==>
                 b.status[x] == Handled || (x in r.list.members && x != TV))
            && (!r.ok ==> forall a: Address :: GetType(a) == types[|got|] ==>
                 r.bus.status[a] == Present || r.bus.status[a] == Handled)
  {
    got := AllocateIsFair(b, acks, NO_ADDRESSES, types);
    OneEach(b, acks, types, got);
    CollectedIs(NO_ADDRESSES, got);
    CollectedCount(NO_ADDRESSES, got);
    FairIsComplete(b, acks, types, got);
  }
}
