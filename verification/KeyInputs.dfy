/** Inputs at which the client gets less than the key press machine was told, or something else. */
module KeyInputs {
  import opened KeyPress
  import opened KeyRuns
  import opened KeyFates
  import opened KeyDelivery
  import opened DoubleTap
  import CallbackQueue

  // ---------- a callback thread that keeps up ----------

  /** Every key press is taken as soon as it is queued, at these times. */
  function Promptly(times: seq<nat>): seq<CallbackQueue.Move> {
    if times == [] then []
    else Promptly(times[..|times| - 1]) + [CallbackQueue.OffersKey] + [CallbackQueue.Takes(times[|times| - 1])]
  }

  function AllHeard(times: seq<nat>): seq<Heard> {
    seq(|times|, i requires 0 <= i < |times| => CallbackQueue.Heard(i, times[i]))
  }

  lemma OneMove(moves: seq<CallbackQueue.Move>, m: CallbackQueue.Move)
    ensures CallbackQueue.Run(moves + [m]) == CallbackQueue.Apply(CallbackQueue.Run(moves), m)
  {
    assert (moves + [m])[..|moves|] == moves;
  }

  lemma {:induction false} PromptlyHeard(times: seq<nat>)
    ensures CallbackQueue.Run(Promptly(times)) == CallbackQueue.State([], |times|, AllHeard(times))
  {
    if times != [] {
      var n := |times| - 1;
      var before := Promptly(times[..n]);
      PromptlyHeard(times[..n]);
      OneMove(before, CallbackQueue.OffersKey);
      OneMove(before + [CallbackQueue.OffersKey], CallbackQueue.Takes(times[n]));
      assert AllHeard(times) == AllHeard(times[..n]) + [CallbackQueue.Heard(n, times[n])];
    }
  }

  /** What such a thread gets of these events. */
  lemma PromptTaps(out: seq<Event>, times: seq<nat>)
    requires |times| == |Queued(out)|
    ensures Offers(out, Promptly(times)) && CallbackQueue.Run(Promptly(times)).heard == AllHeard(times)
    ensures Delivers(out, AllHeard(times))
    ensures Taps(out, AllHeard(times)) ==
            seq(|times|, i requires 0 <= i < |times| => Tap(times[i], Queued(out)[i].key, Queued(out)[i].duration))
  {
    PromptlyHeard(times);
    MovesDeliver(out, Promptly(times));
  }

  // ---------- short runs ----------

  lemma RunTwo(s: Keys, a: Call, b: Call)
    ensures Run(s, [a, b]) == (var (s1, out1) := Step(s, a); var (s2, out2) := Step(s1, b); (s2, out1 + out2))
  {
    var (s1, out1) := Step(s, a);
    var (s2, out2) := Step(s1, b);
    assert [a, b][1..] == [b] && [b][1..] == [];
    assert Run(s1, [b]) == (s2, out2 + []);
    assert out2 + [] == out2;
  }

  lemma RunThree(s: Keys, a: Call, b: Call, c: Call)
    ensures Run(s, [a, b, c]) ==
            (var (s1, out1) := Step(s, a); var (s2, out2) := Step(s1, b); var (s3, out3) := Step(s2, c);
             (s3, out1 + (out2 + out3)))
  {
    assert [a, b, c][1..] == [b, c];
    RunTwo(Step(s, a).0, b, c);
  }

  lemma RunFour(s: Keys, a: Call, b: Call, c: Call, d: Call)
    ensures Run(s, [a, b, c, d]) ==
            (var (s1, out1) := Step(s, a); var (s2, out2) := Run(s1, [b, c, d]); (s2, out1 + out2))
  {
    assert [a, b, c, d][1..] == [b, c, d];
  }

  lemma QueuedStep(events: seq<Event>, n: nat)
    requires n < |events|
    ensures Queued(events[..n + 1]) == Queued(events[..n]) + if events[n].Down? then [] else [events[n]]
  {
    assert events[..n + 1][..n] == events[..n];
  }

  lemma QueuedOfThree(events: seq<Event>)
    requires |events| == 3 && events[0].Down? && !events[1].Down? && !events[2].Down?
    ensures Queued(events) == [events[1], events[2]] && Place(events, 1) == 0 && Place(events, 2) == 1
  {
    QueuedStep(events, 0);
    QueuedStep(events, 1);
    QueuedStep(events, 2);
    assert events[..0] == [] && events[..3] == events;
  }

  lemma QueuedOfFour(events: seq<Event>)
    requires |events| == 4 && events[0].Down? && !events[1].Down? && !events[2].Down? && !events[3].Down?
    ensures Queued(events) == [events[1], events[2], events[3]]
  {
    QueuedOfThree(events[..3]);
    QueuedStep(events, 3);
    assert events[..4] == events;
  }

  lemma QueuedOfSix(events: seq<Event>)
    requires |events| == 6 && events[0].Down? && !events[1].Down? && !events[2].Down? && !events[3].Down?
    requires events[4].Down? && !events[5].Down?
    ensures Queued(events) == [events[1], events[2], events[3], events[5]]
  {
    QueuedOfFour(events[..4]);
    QueuedStep(events, 4);
    QueuedStep(events, 5);
    assert events[..6] == events;
  }

  /** A combo key that plays no part, no auto-repeat, and releases after half a second. */
  const REMOTE := Config(STOP, 1000, 0, 0, 500)

  // ---------- a release without a duration ----------

  lemma TwiceInAMillisecond(key: int, now: Time, timeout: Uint32)
    requires IsKey(key) && timeout > 0
    ensures var taps := [Tap(now, key, 0), Tap(now, key, 0)];
            Kept(timeout, taps, 0) && !Kept(timeout, taps, 1) && Filtered(timeout, FRESH, taps) == [Tap(now, key, 0)]
  {
    var taps := [Tap(now, key, 0), Tap(now, key, 0)];
    assert taps[..0] == [] && taps[..2] == taps;
    StateSnoc(timeout, FRESH, taps, 0);
    FilteredSnoc(timeout, FRESH, taps, 0);
    FilteredSnoc(timeout, FRESH, taps, 1);
  }

  lemma PressAndRelease(c: Config, key: int, now: Time, later: Time)
    requires c.repeatRate == 0 && IsKey(key) && key != c.comboKey && c.comboKey != UNKNOWN_KEY
    ensures Run(IDLE, [Call(now, c, KeyDown(key, 0)), Call(later, c, KeyUp(false, true))]).1 ==
            [Down(key, now), Pressed(key, 0), Released(key, ToUint32(later - now), later)]
  {
    RunTwo(IDLE, Call(now, c, KeyDown(key, 0)), Call(later, c, KeyUp(false, true)));
  }

  /**
   Any key that is no combo key, pressed and released in one millisecond: the client gets the press and
   never the release.
   */
  lemma PressWithoutRelease(c: Config, key: int, now: Time, timeout: Uint32)
    requires c.repeatRate == 0 && IsKey(key) && key != c.comboKey && c.comboKey != UNKNOWN_KEY && timeout > 0
    ensures var out := Run(IDLE, [Call(now, c, KeyDown(key, 0)), Call(now, c, KeyUp(false, true))]).1;
            && out == [Down(key, now), Pressed(key, 0), Released(key, 0, now)]
            && Queued(out) == [Pressed(key, 0), Released(key, 0, now)]
            && Offers(out, Promptly([now, now]))
            && !LostIn(out, Promptly([now, now]), timeout, 1) && LostIn(out, Promptly([now, now]), timeout, 2)
  {
    PressAndRelease(c, key, now, now);
    var out := [Down(key, now), Pressed(key, 0), Released(key, 0, now)];
    QueuedOfThree(out);
    PromptTaps(out, [now, now]);
    var heard := AllHeard([now, now]);
    assert heard == [CallbackQueue.Heard(0, now), CallbackQueue.Heard(1, now)];
    assert heard[..1] == [CallbackQueue.Heard(0, now)];
    assert Taps(out, heard) == [Tap(now, key, 0), Tap(now, key, 0)];
    TwiceInAMillisecond(key, now, timeout);
  }

  /** It is the case that the exact condition names: the queue hands the release on, and it is too short. */
  lemma ThatReleaseIsTooShort(c: Config, key: int, now: Time, timeout: Uint32)
    requires c.repeatRate == 0 && IsKey(key) && key != c.comboKey && c.comboKey != UNKNOWN_KEY && timeout > 0
    ensures var out := Run(IDLE, [Call(now, c, KeyDown(key, 0)), Call(now, c, KeyUp(false, true))]).1;
            && Releases(out, 0, 2) && NoDurations(out, 1, 2) && Offers(out, Promptly([now, now]))
            && !Unheard(out, Promptly([now, now]), 2) && TooShort(out, Promptly([now, now]), timeout, 2)
  {
    var calls := [Call(now, c, KeyDown(key, 0)), Call(now, c, KeyUp(false, true))];
    PressAndRelease(c, key, now, now);
    PressWithoutRelease(c, key, now, timeout);
    QueuedOfThree(Run(IDLE, calls).1);
    PromptlyHeard([now, now]);
    assert CallbackQueue.IsHeard(AllHeard([now, now]), 1) by {
      assert AllHeard([now, now])[1].index == 1;
    }
    CallbackQueue.HeardExactly(Promptly([now, now]), 1);
    assert calls[1..][1..] == [];
    ReleaseIsLostExactly(calls, now, Promptly([now, now]), timeout, 0, 1, 2);
  }

  // ---------- a release that is never queued ----------

  const HELD_KEY := [Call(1000, REMOTE, KeyDown(1, 0)), Call(1400, REMOTE, KeyDown(1, 0)),
                     Call(1900, REMOTE, TimeUp), Call(2000, REMOTE, KeyUp(false, true))]

  lemma HeldKeyRun()
    ensures Run(IDLE, HELD_KEY).1 == [Down(1, 1000), Pressed(1, 0), Pressed(1, 0)]
  {
    RunFour(IDLE, HELD_KEY[0], HELD_KEY[1], HELD_KEY[2], HELD_KEY[3]);
    RunThree(Step(IDLE, HELD_KEY[0]).0, HELD_KEY[1], HELD_KEY[2], HELD_KEY[3]);
  }

  lemma TwoPressesApart()
    ensures Filtered(200, FRESH, [Tap(1000, 1, 0), Tap(1400, 1, 0)]) == [Tap(1000, 1, 0), Tap(1400, 1, 0)]
  {
    var taps := [Tap(1000, 1, 0), Tap(1400, 1, 0)];
    assert taps[..0] == [] && taps[..2] == taps;
    StateSnoc(200, FRESH, taps, 0);
    FilteredSnoc(200, FRESH, taps, 0);
    FilteredSnoc(200, FRESH, taps, 1);
  }

  lemma HeldKeyFate()
    ensures Fate(Step(IDLE, HELD_KEY[0]).0, HELD_KEY[1..]) == Forgotten(PolledAway)
  {
    var s1 := Step(IDLE, HELD_KEY[0]).0;
    var s2 := Step(s1, HELD_KEY[1]).0;
    assert HELD_KEY[1..][1..] == HELD_KEY[2..];
    assert EndingOf(s1, HELD_KEY[1]) == Stays;
    assert EndingOf(s2, HELD_KEY[2]) == Forgotten(PolledAway);
    assert Fate(s2, HELD_KEY[2..]) == Forgotten(PolledAway);
  }

  /**
   A key is held for a second, and its remote repeats it once. A poll gives up waiting for the release
   without telling the client, and the release that does come finds no button held. The client gets two
   presses and no release.
   */
  lemma HeldKeyIsNeverReleased()
    ensures var out := Run(IDLE, HELD_KEY).1;
            && out == [Down(1, 1000), Pressed(1, 0), Pressed(1, 0)]
            && Fate(Step(IDLE, HELD_KEY[0]).0, HELD_KEY[1..]) == Forgotten(PolledAway)
            && Queued(out) == [Pressed(1, 0), Pressed(1, 0)] && Delivers(out, AllHeard([1000, 1400]))
            && Filtered(200, FRESH, Taps(out, AllHeard([1000, 1400]))) == [Tap(1000, 1, 0), Tap(1400, 1, 0)]
            && forall r :: !Releases(out, 0, r)
  {
    HeldKeyRun();
    var out := [Down(1, 1000), Pressed(1, 0), Pressed(1, 0)];
    QueuedOfThree(out);
    PromptTaps(out, [1000, 1400]);
    assert Taps(out, AllHeard([1000, 1400])) == [Tap(1000, 1, 0), Tap(1400, 1, 0)];
    TwoPressesApart();
    HeldKeyFate();
  }

  // ---------- a release that the queue refuses ----------

  function Others(n: nat): seq<CallbackQueue.Move> {
    if n == 0 then [] else Others(n - 1) + [CallbackQueue.OffersOther]
  }

  lemma {:induction false} OthersFill(moves: seq<CallbackQueue.Move>, n: nat)
    requires |CallbackQueue.Run(moves).buffer| + n <= CallbackQueue.MAX_SIZE
    ensures var s := CallbackQueue.Run(moves + Others(n));
            && |s.buffer| == |CallbackQueue.Run(moves).buffer| + n
            && s.offered == CallbackQueue.Run(moves).offered && s.heard == CallbackQueue.Run(moves).heard
  {
    if n == 0 {
      assert moves + Others(0) == moves;
    } else {
      OthersFill(moves, n - 1);
      OneMove(moves + Others(n - 1), CallbackQueue.OffersOther);
      assert moves + Others(n) == moves + Others(n - 1) + [CallbackQueue.OffersOther];
    }
  }

  /** A key press is taken, then a hundred log messages are queued, and then its release. */
  function BusyQueue(now: nat): seq<CallbackQueue.Move> {
    Promptly([now]) + Others(CallbackQueue.MAX_SIZE) + [CallbackQueue.OffersKey]
  }

  lemma BusyQueueRefuses(now: nat)
    ensures var s := CallbackQueue.Run(BusyQueue(now));
            && s.offered == 2 && s.heard == [CallbackQueue.Heard(0, now)]
            && CallbackQueue.Refused(BusyQueue(now), 1)
  {
    var before := Promptly([now]) + Others(CallbackQueue.MAX_SIZE);
    PromptlyHeard([now]);
    OthersFill(Promptly([now]), CallbackQueue.MAX_SIZE);
    OneMove(before, CallbackQueue.OffersKey);
    assert BusyQueue(now)[..|before|] == before;
    assert CallbackQueue.RefusedAt(BusyQueue(now), 1, |before|);
    assert AllHeard([now]) == [CallbackQueue.Heard(0, now)];
  }

  /** Any press and release of a key: the client gets the press, and the full queue refuses the release. */
  lemma RefusedRelease(c: Config, key: int, now: Time, later: Time, timeout: Uint32)
    requires c.repeatRate == 0 && IsKey(key) && key != c.comboKey && c.comboKey != UNKNOWN_KEY && now <= later
    ensures var out := Run(IDLE, [Call(now, c, KeyDown(key, 0)), Call(later, c, KeyUp(false, true))]).1;
            && out == [Down(key, now), Pressed(key, 0), Released(key, ToUint32(later - now), later)]
            && Offers(out, BusyQueue(now))
            && !LostIn(out, BusyQueue(now), timeout, 1) && LostIn(out, BusyQueue(now), timeout, 2)
  {
    PressAndRelease(c, key, now, later);
    var out := [Down(key, now), Pressed(key, 0), Released(key, ToUint32(later - now), later)];
    QueuedOfThree(out);
    BusyQueueRefuses(now);
    MovesDeliver(out, BusyQueue(now));
    LostExactly(out, BusyQueue(now), timeout, 2);
    var heard := [CallbackQueue.Heard(0, now)];
    assert Taps(out, heard)[..0] == [];
    assert Spot(heard, 0) == 0;
  }

  // ---------- the filter and a Samsung TV ----------

  lemma ReportedRun()
    ensures Run(IDLE, [Call(1000, REMOTE, KeyDown(1, 0)), Call(1100, REMOTE, KeyDown(1, 500)),
                       Call(1150, REMOTE, KeyUp(false, true))]).1 ==
            [Down(1, 1000), Pressed(1, 0), Pressed(1, 500), Released(1, 150, 1150)]
  {
    RunThree(IDLE, Call(1000, REMOTE, KeyDown(1, 0)), Call(1100, REMOTE, KeyDown(1, 500)),
             Call(1150, REMOTE, KeyUp(false, true)));
  }

  lemma ReportLooksLikeARelease()
    ensures Filtered(200, FRESH, [Tap(1000, 1, 0), Tap(1100, 1, 500), Tap(1150, 1, 150)]) ==
            [Tap(1000, 1, 0), Tap(1100, 1, 500)]
  {
    var taps := [Tap(1000, 1, 0), Tap(1100, 1, 500), Tap(1150, 1, 150)];
    assert taps[..0] == [] && taps[..3] == taps;
    StateSnoc(200, FRESH, taps, 0);
    StateSnoc(200, FRESH, taps, 1);
    FilteredSnoc(200, FRESH, taps, 0);
    FilteredSnoc(200, FRESH, taps, 1);
    FilteredSnoc(200, FRESH, taps, 2);
  }

  /**
   Key 1 is pressed, then reported by the handler of a Samsung TV, which gives every press a duration of
   500 ms, then released. The filter takes that report for a release, and drops the real one.
   */
  lemma ReleaseAfterFixedDuration()
    ensures var out := Run(IDLE, [Call(1000, REMOTE, KeyDown(1, 0)), Call(1100, REMOTE, KeyDown(1, 500)),
                                  Call(1150, REMOTE, KeyUp(false, true))]).1;
            && Queued(out) == [Pressed(1, 0), Pressed(1, 500), Released(1, 150, 1150)]
            && Delivers(out, AllHeard([1000, 1100, 1150]))
            && Filtered(200, FRESH, Taps(out, AllHeard([1000, 1100, 1150]))) == [Tap(1000, 1, 0), Tap(1100, 1, 500)]
  {
    ReportedRun();
    var e := [Down(1, 1000), Pressed(1, 0), Pressed(1, 500), Released(1, 150, 1150)];
    QueuedOfFour(e);
    PromptTaps(e, [1000, 1100, 1150]);
    assert Taps(e, AllHeard([1000, 1100, 1150])) == [Tap(1000, 1, 0), Tap(1100, 1, 500), Tap(1150, 1, 150)];
    ReportLooksLikeARelease();
  }

  lemma UnheldReportRun()
    ensures Run(IDLE, [Call(1300, REMOTE, KeyDown(2, 0)), Call(1310, REMOTE, KeyDown(1, 500)),
                       Call(1390, REMOTE, KeyDown(1, 0))]).1 ==
            [Down(2, 1300), Pressed(2, 0), Released(2, 10, 1310), Pressed(1, 500), Down(1, 1390), Pressed(1, 0)]
  {
    RunThree(IDLE, Call(1300, REMOTE, KeyDown(2, 0)), Call(1310, REMOTE, KeyDown(1, 500)),
             Call(1390, REMOTE, KeyDown(1, 0)));
  }

  lemma NoDoubleAmongFour()
    ensures var taps := [Tap(1300, 2, 0), Tap(1310, 2, 10), Tap(1310, 1, 500), Tap(1390, 1, 0)];
            !Kept(100, taps, 3) && !Doubled(100, taps, 3) && LastPress(100, taps, 3) == 0
  {
    var taps := [Tap(1300, 2, 0), Tap(1310, 2, 10), Tap(1310, 1, 500), Tap(1390, 1, 0)];
    assert taps[..0] == [];
    StateSnoc(100, FRESH, taps, 0);
    StateSnoc(100, FRESH, taps, 1);
    StateSnoc(100, FRESH, taps, 2);
    assert LastPress(100, taps, 1) == 0 && LastPress(100, taps, 2) == 0;
  }

  /**
   Key 2 is pressed, the handler of a Samsung TV reports key 1, and then key 1 is pressed. Its press is
   dropped at a timeout of 100, though the last press the client got was of key 2.
   */
  lemma DroppedWithoutDouble()
    ensures var out := Run(IDLE, [Call(1300, REMOTE, KeyDown(2, 0)), Call(1310, REMOTE, KeyDown(1, 500)),
                                  Call(1390, REMOTE, KeyDown(1, 0))]).1;
            && Queued(out) == [Pressed(2, 0), Released(2, 10, 1310), Pressed(1, 500), Pressed(1, 0)]
            && Delivers(out, AllHeard([1300, 1310, 1310, 1390]))
            && var taps := Taps(out, AllHeard([1300, 1310, 1310, 1390]));
            && taps == [Tap(1300, 2, 0), Tap(1310, 2, 10), Tap(1310, 1, 500), Tap(1390, 1, 0)]
            && !Kept(100, taps, 3) && !Doubled(100, taps, 3) && LastPress(100, taps, 3) == 0
  {
    UnheldReportRun();
    var e := [Down(2, 1300), Pressed(2, 0), Released(2, 10, 1310), Pressed(1, 500), Down(1, 1390), Pressed(1, 0)];
    QueuedOfSix(e);
    PromptTaps(e, [1300, 1310, 1310, 1390]);
    assert Taps(e, AllHeard([1300, 1310, 1310, 1390])) ==
           [Tap(1300, 2, 0), Tap(1310, 2, 10), Tap(1310, 1, 500), Tap(1390, 1, 0)];
    NoDoubleAmongFour();
  }
}
