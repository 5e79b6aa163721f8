/**
 From the key press machine to the client: what the machine queues waits in the callback queue, if that
 is not full, and then goes through the double-tap filter when the callback thread gets to it.
 */
module KeyDelivery {
  import opened KeyPress
  import opened KeyRuns
  import opened KeyFates
  import opened DoubleTap
  import CallbackQueue

  /** The key presses among the events of a run, in order. */
  function Queued(events: seq<Event>): (q: seq<Event>)
    ensures |q| <= |events| && forall i :: 0 <= i < |q| ==> !q[i].Down?
  {
    if events == [] then []
    else
      var last := events[|events| - 1];
      Queued(events[..|events| - 1]) + if last.Down? then [] else [last]
  }

  /** Where event r is in the queue. */
  function Place(events: seq<Event>, r: nat): nat
    requires r <= |events|
  {
    |Queued(events[..r])|
  }

  lemma {:induction false} Placed(events: seq<Event>, r: nat)
    requires r < |events| && !events[r].Down?
    ensures Place(events, r) < |Queued(events)| && Queued(events)[Place(events, r)] == events[r]
  {
    var n := |events| - 1;
    if r < n {
      Placed(events[..n], r);
      assert events[..n][..r] == events[..r];
    }
  }

  lemma PlaceStep(events: seq<Event>, r: nat)
    requires r < |events|
    ensures Place(events, r + 1) == Place(events, r) + if events[r].Down? then 0 else 1
  {
    assert events[..r + 1][..r] == events[..r];
  }

  /** What is queued between two events comes from events between them. */
  lemma {:induction false} PlacedBetween(events: seq<Event>, p: nat, r: nat, m: nat) returns (q: nat)
    requires p < r <= |events| && Place(events, p) < m < Place(events, r)
    ensures p < q < r && !events[q].Down? && Place(events, q) == m
    decreases r
  {
    PlaceStep(events, r - 1);
    if m == Place(events, r - 1) {
      q := r - 1;
    } else {
      q := PlacedBetween(events, p, r - 1, m);
    }
  }

  lemma {:induction false} PlaceGrows(events: seq<Event>, p: nat, r: nat)
    requires p < r <= |events| && !events[p].Down?
    ensures Place(events, p) < Place(events, r)
    decreases r
  {
    PlaceStep(events, r - 1);
    if p < r - 1 {
      PlaceGrows(events, p, r - 1);
    }
  }

  lemma {:induction false} AfterSnoc(c: Cycle, events: seq<Event>, n: nat)
    requires n < |events|
    ensures KeyRuns.After(c, events[..n + 1]) == Next(KeyRuns.After(c, events[..n]), events[n])
    decreases n
  {
    if n == 0 {
      assert events[..1] == [events[0]] && [events[0]][1..] == [];
    } else {
      AfterSnoc(Next(c, events[0]), events[1..], n - 1);
      assert events[..n + 1][1..] == events[1..][..n] && events[..n][1..] == events[1..][..n - 1];
    }
  }

  lemma {:induction false} CycleIsOpen(out: seq<Event>, d: nat, r: nat, k: nat)
    requires Releases(out, d, r) && d < k <= r
    ensures KeyRuns.After(Closed, out[..k]) == Open(out[d].key, out[d].at)
    decreases k
  {
    AfterSnoc(Closed, out, k - 1);
    if k - 1 > d {
      CycleIsOpen(out, d, r, k - 1);
    }
  }

  /** Every press without a duration, between a button going down and its release, is of that button. */
  lemma PressInCycle(out: seq<Event>, d: nat, r: nat, k: nat)
    requires Accepted(Closed, out) && Releases(out, d, r) && d < k < r && out[k].duration == 0
    ensures out[k].key == out[d].key
  {
    AcceptedPrefix(Closed, out, k);
    CycleIsOpen(out, d, r, k);
  }

  // ---------- what the client gets ----------

  type Heard = CallbackQueue.Heard

  /** What the callback thread took from the queue: some of what was queued, in order. */
  ghost predicate Delivers(out: seq<Event>, heard: seq<Heard>) {
    && CallbackQueue.Increasing(heard)
    && forall j :: 0 <= j < |heard| ==> heard[j].index < |Queued(out)|
  }

  /** The same as the filter sees it. */
  ghost function Taps(out: seq<Event>, heard: seq<Heard>): (taps: seq<Tap>)
    requires Delivers(out, heard)
    ensures |taps| == |heard|
  {
    seq(|heard|, j requires 0 <= j < |heard| =>
      Tap(heard[j].at, Queued(out)[heard[j].index].key, Queued(out)[heard[j].index].duration))
  }

  /** Where the callback thread hears of queue entry i, or -1. */
  function Spot(heard: seq<Heard>, i: nat): (j: int)
    ensures -1 <= j < |heard|
    ensures j >= 0 ==> heard[j].index == i
    ensures j < 0 <==> !CallbackQueue.IsHeard(heard, i)
  {
    if heard == [] then -1
    else if heard[|heard| - 1].index == i then |heard| - 1
    else
      assert forall k :: 0 <= k < |heard| - 1 ==> heard[..|heard| - 1][k] == heard[k];
      Spot(heard[..|heard| - 1], i)
  }

  ghost predicate IsQueued(out: seq<Event>, heard: seq<Heard>, r: nat) {
    Delivers(out, heard) && r < |out| && !out[r].Down?
  }

  /** Event r never reaches the client. */
  ghost predicate Lost(out: seq<Event>, heard: seq<Heard>, timeout: Uint32, r: nat)
    requires IsQueued(out, heard, r)
  {
    var j := Spot(heard, Place(out, r));
    j < 0 || !Kept(timeout, Taps(out, heard), j)
  }

  /** When event r comes to the filter. */
  ghost function HeardAt(out: seq<Event>, heard: seq<Heard>, r: nat): nat
    requires IsQueued(out, heard, r)
  {
    TimeOf(Taps(out, heard), Spot(heard, Place(out, r)))
  }

  /** When the last press that the client got before event r came to the filter, or 0. */
  ghost function LastPressAt(out: seq<Event>, heard: seq<Heard>, timeout: Uint32, r: nat): nat
    requires IsQueued(out, heard, r)
  {
    var j := Spot(heard, Place(out, r));
    if j < 0 then 0 else TimeOf(Taps(out, heard), LastPress(timeout, Taps(out, heard), j))
  }

  /** The same for the last event with a duration since that press. */
  ghost function LastReleaseAt(out: seq<Event>, heard: seq<Heard>, timeout: Uint32, r: nat): nat
    requires IsQueued(out, heard, r)
  {
    var j := Spot(heard, Place(out, r));
    if j < 0 then 0 else TimeOf(Taps(out, heard), LastRelease(timeout, Taps(out, heard), j))
  }

  /** The key of the last event that the client got before event r. */
  ghost function LastKeyAt(out: seq<Event>, heard: seq<Heard>, timeout: Uint32, r: nat): int
    requires IsQueued(out, heard, r)
  {
    var j := Spot(heard, Place(out, r));
    if j < 0 then UNKNOWN_KEY else LastKey(timeout, Taps(out, heard), j)
  }

  /**
   The filter drops event r. A release, too, is compared with the last press when it has no duration, and
   otherwise with the last event that had one.
   */
  ghost predicate Swallowed(out: seq<Event>, heard: seq<Heard>, timeout: Uint32, r: nat)
    requires IsQueued(out, heard, r)
  {
    && timeout != 0 && LastKeyAt(out, heard, timeout, r) == out[r].key
    && if out[r].duration == 0 then HeardAt(out, heard, r) - LastPressAt(out, heard, timeout, r) < timeout
       else LastReleaseAt(out, heard, timeout, r) != 0
            && HeardAt(out, heard, r) - LastReleaseAt(out, heard, timeout, r) < timeout
  }

  lemma LostMeans(out: seq<Event>, heard: seq<Heard>, timeout: Uint32, r: nat)
    requires IsQueued(out, heard, r)
    ensures Lost(out, heard, timeout, r) <==>
            !CallbackQueue.IsHeard(heard, Place(out, r)) || Swallowed(out, heard, timeout, r)
  {
    Placed(out, r);
    var j := Spot(heard, Place(out, r));
    if j >= 0 {
      DroppedExactly(timeout, Taps(out, heard), j);
    }
  }

  /** The moves of a queue to which exactly these events were offered. */
  ghost predicate Offers(out: seq<Event>, moves: seq<CallbackQueue.Move>) {
    CallbackQueue.Run(moves).offered == |Queued(out)|
  }

  lemma MovesDeliver(out: seq<Event>, moves: seq<CallbackQueue.Move>)
    requires Offers(out, moves)
    ensures Delivers(out, CallbackQueue.Run(moves).heard)
  {
    CallbackQueue.RunKeepsOrder(moves);
  }

  /** Event r is not taken from the queue: it was refused because the queue was full, or it waits there. */
  ghost predicate Unheard(out: seq<Event>, moves: seq<CallbackQueue.Move>, r: nat)
    requires r < |out|
  {
    CallbackQueue.Refused(moves, Place(out, r)) || CallbackQueue.Waits(moves, Place(out, r))
  }

  ghost predicate LostIn(out: seq<Event>, moves: seq<CallbackQueue.Move>, timeout: Uint32, r: nat)
    requires Offers(out, moves) && r < |out| && !out[r].Down?
  {
    MovesDeliver(out, moves);
    Lost(out, CallbackQueue.Run(moves).heard, timeout, r)
  }

  ghost predicate SwallowedIn(out: seq<Event>, moves: seq<CallbackQueue.Move>, timeout: Uint32, r: nat)
    requires Offers(out, moves) && r < |out| && !out[r].Down?
  {
    MovesDeliver(out, moves);
    Swallowed(out, CallbackQueue.Run(moves).heard, timeout, r)
  }

  /** Exactly which key presses the client never gets, whatever else is queued and whenever the thread runs. */
  lemma LostExactly(out: seq<Event>, moves: seq<CallbackQueue.Move>, timeout: Uint32, r: nat)
    requires Offers(out, moves) && r < |out| && !out[r].Down?
    ensures LostIn(out, moves, timeout, r) <==> Unheard(out, moves, r) || SwallowedIn(out, moves, timeout, r)
  {
    MovesDeliver(out, moves);
    Placed(out, r);
    LostMeans(out, CallbackQueue.Run(moves).heard, timeout, r);
    CallbackQueue.HeardExactly(moves, Place(out, r));
  }

  // ---------- presses and their releases ----------

  lemma ReleaseIsUnique(out: seq<Event>, d: nat)
    requires Accepted(Closed, out) && d < |out| && out[d].Down?
    ensures (exists r :: Releases(out, d, r)) <==> ReleasedFirst(out[d + 1..])
  {
    var rest := out[d + 1..];
    if ReleasedFirst(rest) {
      var k :| 0 <= k < |rest| && rest[k].Released? && forall j :: 0 <= j < k ==> !IsTurn(rest[j]);
      var r := d + 1 + k;
      assert out[r] == rest[k];
      forall j | d < j < r
        ensures !IsTurn(out[j])
      {
        assert out[j] == rest[j - d - 1];
      }
      var d' := AcceptedRelease(out, r);
      assert d' == d;
    }
    if r: nat :| Releases(out, d, r) {
      assert rest[r - d - 1] == out[r];
      forall j | 0 <= j < r - d - 1
        ensures !IsTurn(rest[j])
      {
        assert rest[j] == out[d + 1 + j];
      }
    }
  }

  /**
   In every run from rest, a button that goes down gets a release before the next one goes down exactly
   when the calls after it let it go.
   */
  lemma DownIsReleasedExactly(calls: seq<Call>, t: Time, d: nat) returns (n: nat)
    requires KeyRuns.InOrder(calls, t) && d < |Run(IDLE, calls).1| && Run(IDLE, calls).1[d].Down?
    ensures GoesDownIn(IDLE, calls, d, n) && Run(IDLE, calls[..n + 1]).0.Held()
    ensures (exists r :: Releases(Run(IDLE, calls).1, d, r)) <==>
            Fate(Run(IDLE, calls[..n + 1]).0, calls[n + 1..]) == LetGo
  {
    RunAccepted(IDLE, t, calls, Closed);
    n := FateOfDown(IDLE, t, calls, d);
    ReleaseIsUnique(Run(IDLE, calls).1, d);
  }

  /** The client gets no release of the button that went down at d before another goes down. */
  ghost predicate LeftPressed(out: seq<Event>, moves: seq<CallbackQueue.Move>, timeout: Uint32, d: nat)
    requires Offers(out, moves)
  {
    forall r :: Releases(out, d, r) ==> LostIn(out, moves, timeout, r)
  }

  lemma OneRelease(out: seq<Event>, d: nat)
    ensures forall r, r' :: Releases(out, d, r) && Releases(out, d, r') ==> r == r'
  {
  }

  /**
   Every button that goes down, in every run from rest and whatever the queue does: exactly when it is
   left pressed. Its release is never queued, or the queue refuses it or still holds it, or the filter
   drops it.
   */
  lemma LeftPressedExactly(calls: seq<Call>, t: Time, moves: seq<CallbackQueue.Move>, timeout: Uint32, d: nat)
    returns (n: nat)
    requires KeyRuns.InOrder(calls, t) && d < |Run(IDLE, calls).1| && Run(IDLE, calls).1[d].Down?
    requires Offers(Run(IDLE, calls).1, moves)
    ensures GoesDownIn(IDLE, calls, d, n) && Run(IDLE, calls[..n + 1]).0.Held()
    ensures var out := Run(IDLE, calls).1;
            LeftPressed(out, moves, timeout, d) <==>
            Fate(Run(IDLE, calls[..n + 1]).0, calls[n + 1..]) != LetGo
            || exists r :: Releases(out, d, r) && (Unheard(out, moves, r) || SwallowedIn(out, moves, timeout, r))
  {
    var out := Run(IDLE, calls).1;
    n := DownIsReleasedExactly(calls, t, d);
    forall r | Releases(out, d, r)
      ensures LostIn(out, moves, timeout, r) <==> Unheard(out, moves, r) || SwallowedIn(out, moves, timeout, r)
    {
      LostExactly(out, moves, timeout, r);
    }
    OneRelease(out, d);
  }

  // ---------- with nothing of a duration in between ----------

  /** Nothing that is queued from p on, and before r, has a duration. */
  ghost predicate NoDurations(out: seq<Event>, p: nat, r: nat) {
    r <= |out| && forall k :: p <= k < r ==> !out[k].Down? && out[k].duration == 0
  }

  lemma PressesBetween(out: seq<Event>, heard: seq<Heard>, d: nat, p: nat, r: nat, m: nat)
    requires Accepted(Closed, out) && Releases(out, d, r) && d < p < r && Delivers(out, heard)
    requires NoDurations(out, p, r)
    requires m < |heard| && Place(out, p) <= heard[m].index < Place(out, r)
    ensures Taps(out, heard)[m].key == out[d].key && Taps(out, heard)[m].IsPress()
  {
    var q := p;
    if heard[m].index != Place(out, p) {
      q := PlacedBetween(out, p, r, heard[m].index);
    }
    Placed(out, q);
    PressInCycle(out, d, r, q);
  }

  lemma SinceItsPress(out: seq<Event>, heard: seq<Heard>, timeout: Uint32, d: nat, p: nat, r: nat)
    requires Accepted(Closed, out) && Releases(out, d, r) && d < p < r && Delivers(out, heard)
    requires NoDurations(out, p, r)
    requires !Lost(out, heard, timeout, p) && Spot(heard, Place(out, r)) >= 0
    ensures LastKeyAt(out, heard, timeout, r) == out[r].key && LastReleaseAt(out, heard, timeout, r) == 0
  {
    PlaceGrows(out, p, r);
    var taps, i, j := Taps(out, heard), Spot(heard, Place(out, p)), Spot(heard, Place(out, r));
    assert i < j;
    PressesBetween(out, heard, d, p, r, i);
    forall m | i < m < j
      ensures taps[m].key == taps[i].key && taps[m].IsPress()
    {
      PressesBetween(out, heard, d, p, r, m);
    }
    SincePress(timeout, taps, i, j);
  }

  /** Event r has no duration, and comes too soon after the last press that the client got. */
  ghost predicate TooShort(out: seq<Event>, moves: seq<CallbackQueue.Move>, timeout: Uint32, r: nat)
    requires Offers(out, moves) && r < |out| && !out[r].Down?
  {
    MovesDeliver(out, moves);
    var heard := CallbackQueue.Run(moves).heard;
    out[r].duration == 0 && timeout != 0 && HeardAt(out, heard, r) - LastPressAt(out, heard, timeout, r) < timeout
  }

  lemma LostWithoutDurations(out: seq<Event>, moves: seq<CallbackQueue.Move>, timeout: Uint32, d: nat, p: nat, r: nat)
    requires Accepted(Closed, out) && Offers(out, moves) && NoDurations(out, p, r)
    requires Releases(out, d, r) && d < p < r && !LostIn(out, moves, timeout, p)
    ensures LostIn(out, moves, timeout, r) <==> Unheard(out, moves, r) || TooShort(out, moves, timeout, r)
  {
    LostExactly(out, moves, timeout, r);
    MovesDeliver(out, moves);
    Placed(out, r);
    CallbackQueue.HeardExactly(moves, Place(out, r));
    if !Unheard(out, moves, r) {
      SinceItsPress(out, CallbackQueue.Run(moves).heard, timeout, d, p, r);
    }
  }

  /**
   In every run: a button goes down at d, is pressed and this reaches the client at p, and is released
   at r, with nothing of a duration in between. The client loses the release exactly when the queue does
   not hand it on, or it has no duration and comes to the filter too soon after the last press that the
   client got.
   */
  lemma ReleaseIsLostExactly(calls: seq<Call>, t: Time, moves: seq<CallbackQueue.Move>, timeout: Uint32,
                             d: nat, p: nat, r: nat)
    requires KeyRuns.InOrder(calls, t) && Offers(Run(IDLE, calls).1, moves)
    requires Releases(Run(IDLE, calls).1, d, r) && d < p < r && !LostIn(Run(IDLE, calls).1, moves, timeout, p)
    ensures var out := Run(IDLE, calls).1;
            NoDurations(out, p, r) ==>
              (LostIn(out, moves, timeout, r) <==> Unheard(out, moves, r) || TooShort(out, moves, timeout, r))
  {
    var out := Run(IDLE, calls).1;
    RunAccepted(IDLE, t, calls, Closed);
    if NoDurations(out, p, r) {
      LostWithoutDurations(out, moves, timeout, d, p, r);
    }
  }

  // ---------- auto-repeat off, and presses without a duration ----------

  predicate IsPlain(call: Call) {
    call.config.repeatRate == 0 && (call.input.KeyDown? ==> call.input.duration == 0)
  }

  ghost predicate AllPlain(calls: seq<Call>) {
    forall i :: 0 <= i < |calls| ==> IsPlain(calls[i])
  }

  predicate PlainEvent(e: Event) {
    !e.Repeated? && (e.Pressed? ==> e.duration == 0)
  }

  ghost predicate PlainEvents(out: seq<Event>) {
    forall i :: 0 <= i < |out| ==> PlainEvent(out[i])
  }

  lemma HoldIsPlain(c: Config, s: Keys, now: Time, key: int, sent: int)
    requires c.repeatRate == 0 && s.repeat == 0
    ensures Hold(c, s, now, key, sent, 0).0.repeat == 0 && PlainEvents(Hold(c, s, now, key, sent, 0).1)
  {
  }

  lemma StepIsPlain(s: Keys, call: Call)
    requires IsPlain(call) && s.repeat == 0
    ensures Step(s, call).0.repeat == 0 && PlainEvents(Step(s, call).1)
  {
    if call.input.KeyDown? {
      var c, now, key := call.config, call.at, call.input.key;
      HoldIsPlain(c, s, now, key, key);
      HoldIsPlain(c, s, now, key, Combined(key));
      HoldIsPlain(c, Lift(c, s, now, true, false).0, now, key, key);
    }
  }

  lemma {:induction false} RunIsPlain(s: Keys, calls: seq<Call>)
    requires s.repeat == 0 && AllPlain(calls)
    ensures PlainEvents(Run(s, calls).1)
    decreases |calls|
  {
    if calls != [] {
      StepIsPlain(s, calls[0]);
      RunIsPlain(Step(s, calls[0]).0, calls[1..]);
    }
  }

  lemma PlainRunFromRest(calls: seq<Call>, t: Time)
    requires KeyRuns.InOrder(calls, t) && AllPlain(calls)
    ensures Accepted(Closed, Run(IDLE, calls).1) && PlainEvents(Run(IDLE, calls).1)
  {
    RunIsPlain(IDLE, calls);
    RunAccepted(IDLE, t, calls, Closed);
  }

  lemma PlainBetween(out: seq<Event>, d: nat, r: nat)
    requires PlainEvents(out) && Releases(out, d, r)
    ensures NoDurations(out, d + 1, r)
  {
    forall k | d < k < r
      ensures out[k].duration == 0
    {
      assert PlainEvent(out[k]);
    }
  }

  /**
   In such runs nothing has a duration but releases, so that the condition is exact for every press that
   the client got. By Releases, a release without a duration is one in the millisecond of its press.
   */
  lemma PlainReleaseIsLostExactly(calls: seq<Call>, t: Time, moves: seq<CallbackQueue.Move>, timeout: Uint32,
                                  d: nat, p: nat, r: nat)
    requires KeyRuns.InOrder(calls, t) && AllPlain(calls) && Offers(Run(IDLE, calls).1, moves)
    requires Releases(Run(IDLE, calls).1, d, r) && d < p < r && !LostIn(Run(IDLE, calls).1, moves, timeout, p)
    ensures var out := Run(IDLE, calls).1;
            LostIn(out, moves, timeout, r) <==> Unheard(out, moves, r) || TooShort(out, moves, timeout, r)
  {
    PlainRunFromRest(calls, t);
    var out := Run(IDLE, calls).1;
    PlainBetween(out, d, r);
    LostWithoutDurations(out, moves, timeout, d, p, r);
  }
}
