/**
 The key press machine, one call at a time, in values: which button a press leaves held, which timers it
 sets, what it queues, and when a held button repeats.
 */
module KeyLaws {
  import opened KeyPress
  import opened KeyRuns
  import opened KeyPolls

  /** Durations count milliseconds and wrap after 32 bits. */
  lemma DurationsWrap(x: int)
    ensures 0 <= x < 0x1_0000_0000 ==> ToUint32(x) == x
    ensures ToUint32(x + 0x1_0000_0000) == ToUint32(x)
  {
  }

  /** A press without a duration follows the combo key when that is held and combos time out. */
  predicate InCombo(c: Config, s: Keys, duration: Uint32) {
    duration == 0 && c.comboTimeout > 0 && s.button == c.comboKey
  }

  /** SELECT, PAUSE and PLAY make EXIT, ROOT_MENU and DOT. */
  predicate MakesCombo(key: int) {
    key == 0x00 || key == 0x46 || key == 0x44
  }

  /** The press is of the button that is held, and does not end a combo. */
  predicate SameButton(c: Config, s: Keys, key: int, duration: Uint32) {
    s.button == key && (InCombo(c, s, duration) ==> MakesCombo(key))
  }

  /** The key that a press stands for. */
  function Meant(c: Config, s: Keys, key: int, duration: Uint32): int {
    if !InCombo(c, s, duration) then key
    else if key == 0x00 then 0x0D else if key == 0x46 then 0x09 else if key == 0x44 then 0x2A else key
  }

  /** How long a press keeps its button held: what is configured, and five seconds once releases are known. */
  function HoldTime(c: Config, s: Keys): int {
    var configured := if c.releaseDelay == 0 then 500 else c.releaseDelay;
    if s.seenRelease && c.repeatRate == 0 && configured < 5000 then 5000 else configured
  }

  /**
   The state after a press. The same button again keeps the time it went down, and its repeat is set
   once, with the third press. Another button starts afresh unless the press has a duration.
   */
  lemma PressHolds(c: Config, s: Keys, now: Time, key: int, duration: Uint32)
    requires Sound(s, now) && 0 <= key <= 0x96
    ensures var s' := Press(c, s, now, key, duration).0;
            if SameButton(c, s, key, duration) then
              && s'.button == s.button && s'.initial == s.initial && s'.pressed == s.pressed + 1
              && s'.update == now && s'.release == now + HoldTime(c, s) && s'.seenRelease == s.seenRelease
              && s'.repeat == if c.repeatRate > 0 && s.repeat == 0 && s.pressed >= 2 then s.initial + c.repeatDelay
                              else s.repeat
            else if duration == 0 then
              s' == Keys(Meant(c, s, key, 0), now, now, 0, now + HoldTime(c, s), 1, s.seenRelease)
            else
              s' == Lift(c, s, now, false, false).0
  {
  }

  /**
   What a press queues: the release of another button that was held, unless that waits for its combo;
   then the press itself, unless it repeats while auto-repeat is on or is of the combo key without a
   duration.
   */
  lemma PressQueues(c: Config, s: Keys, now: Time, key: int, duration: Uint32)
    requires Sound(s, now) && 0 <= key <= 0x96
    ensures var same, sent := SameButton(c, s, key, duration), Meant(c, s, key, duration);
            var waits := c.comboTimeout > 0 && s.button == c.comboKey && (duration > 0 || sent != key)
                         && (now - s.update) % 0x1_0000_0000 <= c.comboTimeout;
            var lets := s.button != 0xFF && !same && !waits
                        && (s.button != sent || (InCombo(c, s, duration) && sent == key));
            Press(c, s, now, key, duration).1 ==
            (if lets then [Released(s.button, (now - s.initial) % 0x1_0000_0000, now)] else [])
            + (if !same && duration == 0 then [Down(sent, now)] else [])
            + if (key != c.comboKey || duration > 0) && !(same && c.repeatRate > 0) then [Pressed(sent, duration)]
              else []
  {
  }

  /** A key that does not exist is no press: it lets the held button go like a call that asks for that. */
  lemma UnknownPress(c: Config, s: Keys, now: Time, key: int, duration: Uint32)
    requires key < 0 || key > 0x96
    ensures Press(c, s, now, key, duration) == Lift(c, s, now, false, false)
  {
  }

  /**
   Letting go. The combo key stays held until its timeout unless it is to be sent. A release that
   arrives is noted for good, and is not queued while auto-repeat is on.
   */
  lemma LiftLetsGo(c: Config, s: Keys, now: Time, sendCombo: bool, isRelease: bool)
    ensures var (s', out) := Lift(c, s, now, sendCombo, isRelease);
            var since, held := (now - s.update) % 0x1_0000_0000, (now - s.initial) % 0x1_0000_0000;
            var goes := s.button != 0xFF
                        && (since > c.comboTimeout || c.comboTimeout == 0 || s.button != c.comboKey || sendCombo);
            && s'.seenRelease == (s.seenRelease || isRelease)
            && s' == (if goes then Keys(0xFF, 0, 0, 0, 0, 0, s'.seenRelease) else s.(seenRelease := s'.seenRelease))
            && out == if goes && !(isRelease && c.repeatRate > 0) then [Released(s.button, held, now)] else []
  {
  }

  /** A poll of the combo key lets it go from its timeout on. */
  lemma PollOfComboKey(c: Config, s: Keys, t: Time, now: Time)
    requires Sound(s, t) && t <= now && s.Held() && s.button == c.comboKey
    ensures var (s', out, delay) := Poll(c, s, now);
            if 0 < c.comboTimeout <= now - s.update then
              && s' == Keys(0xFF, 0, 0, 0, 0, 0, s.seenRelease)
              && out == [Released(s.button, (now - s.initial) % 0x1_0000_0000, now)] && delay == 1000
            else s' == s && out == []
  {
  }

  /** A poll of any other button: when its release is due, when its repeat is, and otherwise. */
  lemma PollOfOtherKey(c: Config, s: Keys, t: Time, now: Time)
    requires Sound(s, t) && t <= now && s.Held() && s.button != c.comboKey
    ensures var (s', out, delay) := Poll(c, s, now);
            var held := (now - s.initial) % 0x1_0000_0000;
            if now >= s.release then
              && s' == Keys(0xFF, 0, 0, 0, 0, 0, s.seenRelease) && delay == 1000
              && out == if s.pressed == 1 then [Released(s.button, held, now)] else []
            else if 0 < s.repeat <= now then
              && s' == s.(repeat := now + c.repeatRate) && out == [Repeated(s.button, held, now)]
              && delay == if c.repeatRate < 1 then 1 else if c.repeatRate > 1000 then 1000 else c.repeatRate
            else s' == s && out == []
  {
  }

  /** A poll with no button held. */
  lemma PollOfNothing(c: Config, s: Keys, now: Time)
    requires s.button == 0xFF
    ensures Poll(c, s, now) == (s, [], 1000)
  {
  }

  /** A reset forgets everything, and queues nothing. */
  lemma ResetForgets(c: Config, s: Keys, now: Time)
    ensures Step(s, Call(now, c, Detach)) == (Keys(0xFF, 0, 0, 0, 0, 0, false), [])
  {
  }

  // ---------- auto-repeat ----------

  /** After a poll that repeats, a poll before the release is due repeats exactly when the rate has passed. */
  lemma NextRepeat(c: Config, s: Keys, t: Time, now: Time, later: Time)
    requires Sound(s, t) && t <= now <= later < s.release
    requires s.button != c.comboKey && 0 < s.repeat <= now
    ensures var s' := Poll(c, s, now).0;
            Poll(c, s', later).1 ==
            if later - now >= c.repeatRate then [Repeated(s.button, (later - s.initial) % 0x1_0000_0000, later)] else []
  {
    PollOfOtherKey(c, s, t, now);
    StepKeepsSound(s, t, Call(now, c, TimeUp));
    PollOfOtherKey(c, Poll(c, s, now).0, now, later);
  }

  /** Three presses of one key from rest. */
  function PressedThrice(c: Config, seen: bool, key: int, t1: Time, t2: Time, t3: Time): Keys {
    var s1 := Press(c, IDLE.(seenRelease := seen), t1, key, 0).0;
    var s2 := Press(c, s1, t2, key, 0).0;
    Press(c, s2, t3, key, 0).0
  }

  /** The key means itself: it is not the combo key, nor one that "no button" as combo key would change. */
  predicate MeansItself(c: Config, key: int) {
    0 <= key <= 0x96 && key != c.comboKey && !(c.comboKey == 0xFF && c.comboTimeout > 0 && MakesCombo(key))
  }

  lemma ThirdPress(c: Config, seen: bool, key: int, t1: Time, t2: Time, t3: Time)
    requires MeansItself(c, key) && c.repeatRate > 0 && t1 <= t2 <= t3
    ensures var release := t3 + if c.releaseDelay == 0 then 500 else c.releaseDelay;
            PressedThrice(c, seen, key, t1, t2, t3) == Keys(key, t1, t3, t1 + c.repeatDelay, release, 3, seen)
    ensures Sound(PressedThrice(c, seen, key, t1, t2, t3), t3)
  {
    var s0 := IDLE.(seenRelease := seen);
    var s1 := Press(c, s0, t1, key, 0).0;
    var s2 := Press(c, s1, t2, key, 0).0;
    PressHolds(c, s0, t1, key, 0);
    StepKeepsSound(s0, t1, Call(t1, c, KeyDown(key, 0)));
    PressHolds(c, s1, t2, key, 0);
    StepKeepsSound(s1, t1, Call(t2, c, KeyDown(key, 0)));
    PressHolds(c, s2, t3, key, 0);
    StepKeepsSound(s2, t2, Call(t3, c, KeyDown(key, 0)));
  }

  /** The first repeat of a key that is pressed again and again is due from its first press plus the delay. */
  lemma FirstRepeat(c: Config, seen: bool, key: int, t1: Time, t2: Time, t3: Time, now: Time)
    requires MeansItself(c, key) && c.repeatRate > 0 && t1 <= t2 <= t3 <= now
    requires now < t3 + if c.releaseDelay == 0 then 500 else c.releaseDelay
    ensures Poll(c, PressedThrice(c, seen, key, t1, t2, t3), now).1 ==
            if now >= t1 + c.repeatDelay then [Repeated(key, (now - t1) % 0x1_0000_0000, now)] else []
  {
    ThirdPress(c, seen, key, t1, t2, t3);
    PollOfOtherKey(c, PressedThrice(c, seen, key, t1, t2, t3), t3, now);
  }

  /** What a run of polls queues. */
  function Heard(c: Config, s: Keys, times: seq<Time>): seq<Event>
    decreases |times|
  {
    if times == [] then [] else Poll(c, s, times[0]).1 + Heard(c, Poll(c, s, times[0]).0, times[1..])
  }

  /** The k-th event is the repeat of the button at time first + k * rate, for as many as come by the end. */
  ghost predicate RepeatsFrom(out: seq<Event>, key: int, initial: int, first: int, rate: int, end: int) {
    && (forall k :: 0 <= k < |out| ==>
          out[k].Repeated? && out[k].key == key && out[k].at == first + k * rate
          && out[k].duration == (out[k].at - initial) % 0x1_0000_0000)
    && (out != [] ==> first + (|out| - 1) * rate <= end)
    && end < first + |out| * rate
  }

  lemma RepeatsFromNext(e: Event, out: seq<Event>, key: int, initial: int, first: int, rate: int, end: int)
    requires e.Repeated? && e.key == key && e.at == first && e.duration == (e.at - initial) % 0x1_0000_0000
    requires RepeatsFrom(out, key, initial, first + rate, rate, end) && first <= end
    ensures RepeatsFrom([e] + out, key, initial, first, rate, end)
  {
    var all := [e] + out;
    forall k | 0 <= k < |all|
      ensures all[k].Repeated? && all[k].key == key && all[k].at == first + k * rate
              && all[k].duration == (all[k].at - initial) % 0x1_0000_0000
    {
      if k > 0 {
        assert all[k] == out[k - 1];
        assert first + rate + (k - 1) * rate == first + k * rate;
      }
    }
    if out != [] {
      assert first + rate + (|out| - 1) * rate == first + |out| * rate;
    }
    assert first + rate + |out| * rate == first + |all| * rate;
  }

  lemma {:induction false} LastIsLater(c: Config, s: Keys, t: Time, due: int, times: seq<Time>)
    requires OnTime(c, s, t, due, times) && times != []
    ensures t <= times[|times| - 1]
    decreases |times|
  {
    if |times| > 1 {
      var s' := Poll(c, s, times[0]).0;
      LastIsLater(c, s', times[0], times[0] + Poll(c, s, times[0]).2, times[1..]);
    }
  }

  /** One poll that comes by the time the repeat is due: it repeats then, and asks for the next in time. */
  lemma PollForRepeat(c: Config, s: Keys, t: Time, now: Time)
    requires Sound(s, t) && s.Held() && s.button != c.comboKey && c.repeatRate > 0
    requires t <= now <= s.repeat && now < s.release
    ensures var (s', out, delay) := Poll(c, s, now);
            && Sound(s', now) && s' == s.(repeat := s'.repeat) && now + delay <= s'.repeat
            && if now < s.repeat then s'.repeat == s.repeat && out == []
               else s'.repeat == s.repeat + c.repeatRate
                    && out == [Repeated(s.button, (now - s.initial) % 0x1_0000_0000, now)]
  {
    PollOfOtherKey(c, s, t, now);
    PollHitsTheDeadlines(c, s, t, now);
    StepKeepsSound(s, t, Call(now, c, TimeUp));
    assert s.repeat in Deadlines(c, s);
  }

  /**
   When polls come on time, a button whose repeat is due at some time repeats exactly then and after
   every rate, never early or late and without missing one, until the polls end or its release is due.
   */
  lemma {:induction false} RepeatsOnTime(c: Config, s: Keys, t: Time, due: int, times: seq<Time>)
    requires Sound(s, t) && s.Held() && s.button != c.comboKey && c.repeatRate > 0
    requires t <= s.repeat && due <= s.repeat
    requires OnTime(c, s, t, due, times) && times != []
    requires forall i :: 0 <= i < |times| ==> times[i] < s.release
    ensures RepeatsFrom(Heard(c, s, times), s.button, s.initial, s.repeat, c.repeatRate, times[|times| - 1])
    decreases |times|
  {
    var now, rest := times[0], times[1..];
    var (s', out, delay) := Poll(c, s, now);
    PollForRepeat(c, s, t, now);
    if rest == [] {
      assert Heard(c, s', rest) == [];
    } else {
      assert forall i :: 0 <= i < |rest| ==> rest[i] == times[i + 1];
      RepeatsOnTime(c, s', now, now + delay, rest);
      LastIsLater(c, s', now, now + delay, rest);
    }
    if now == s.repeat {
      RepeatsFromNext(out[0], Heard(c, s', rest), s.button, s.initial, s.repeat, c.repeatRate, times[|times| - 1]);
    } else {
      assert out + Heard(c, s', rest) == Heard(c, s', rest);
    }
  }

  lemma {:induction false} AllBeforeLast(c: Config, s: Keys, t: Time, due: int, times: seq<Time>)
    requires OnTime(c, s, t, due, times) && times != []
    ensures forall i :: 0 <= i < |times| ==> times[i] <= times[|times| - 1]
    decreases |times|
  {
    LastIsLater(c, s, t, due, times);
    if |times| > 1 {
      var s' := Poll(c, s, times[0]).0;
      LastIsLater(c, s', times[0], times[0] + Poll(c, s, times[0]).2, times[1..]);
      AllBeforeLast(c, s', times[0], times[0] + Poll(c, s, times[0]).2, times[1..]);
      assert forall i :: 1 <= i < |times| ==> times[i] == times[1..][i - 1];
    }
  }

  /** The same from rest: a key pressed three times and then polled on time. */
  lemma HeldKeyRepeats(c: Config, seen: bool, key: int, t1: Time, t2: Time, t3: Time, due: int, times: seq<Time>)
    requires MeansItself(c, key) && c.repeatRate > 0
    requires t1 <= t2 <= t3 <= t1 + c.repeatDelay && due <= t1 + c.repeatDelay
    requires OnTime(c, PressedThrice(c, seen, key, t1, t2, t3), t3, due, times) && times != []
    requires times[|times| - 1] < t3 + if c.releaseDelay == 0 then 500 else c.releaseDelay
    ensures RepeatsFrom(Heard(c, PressedThrice(c, seen, key, t1, t2, t3), times),
                        key, t1, t1 + c.repeatDelay, c.repeatRate, times[|times| - 1])
  {
    var s := PressedThrice(c, seen, key, t1, t2, t3);
    ThirdPress(c, seen, key, t1, t2, t3);
    AllBeforeLast(c, s, t3, due, times);
    RepeatsOnTime(c, s, t3, due, times);
  }

  /** A key held since 1000 with a rate of 200: it repeats at 2000 and at 2200. */
  lemma RepeatsAtItsRate()
    ensures var c := Config(STOP, 1000, 200, 1000, 2000);
            var (s1, out1, delay1) := Poll(c, Keys(1, 1000, 1900, 2000, 3900, 5, false), 2000);
            var (s2, out2, delay2) := Poll(c, s1, 2200);
            && out1 == [Repeated(1, 1000, 2000)] && delay1 == 200
            && out2 == [Repeated(1, 1200, 2200)] && delay2 == 200
  {
  }
}
