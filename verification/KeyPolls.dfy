/** The polls of the key press machine: their delays, and how long a button can stay held. */
module KeyPolls {
  import opened KeyPress
  import opened KeyRuns

  /** The times at which something is due for a held button. */
  ghost function Deadlines(c: Config, s: Keys): set<int> {
    if !s.Held() then {}
    else if s.button == c.comboKey then (if c.comboTimeout > 0 then {s.update + c.comboTimeout} else {})
    else {s.release} + if s.repeat != 0 then {s.repeat} else {}
  }

  /** What a poll has to do with the deadlines. */
  ghost predicate MeetsDeadlines(c: Config, s: Keys, now: Time) {
    var (s', out, delay) := Poll(c, s, now);
    && 1 <= delay <= SIGNAL_WAIT_TIME
    && (s' != s || out != [] <==> exists d :: d in Deadlines(c, s) && d <= now)
    && (s' == s && out == [] ==>
          && (forall d :: d in Deadlines(c, s) ==> now + delay <= d)
          && (delay == SIGNAL_WAIT_TIME || now + delay in Deadlines(c, s)))
  }

  lemma ComboKeyMeetsDeadlines(c: Config, s: Keys, t: Time, now: Time)
    requires Sound(s, t) && t <= now && s.Held() && s.button == c.comboKey
    ensures MeetsDeadlines(c, s, now)
  {
    if c.comboTimeout > 0 {
      assert s.update + c.comboTimeout in Deadlines(c, s);
    }
  }

  lemma OtherKeyMeetsDeadlines(c: Config, s: Keys, t: Time, now: Time)
    requires Sound(s, t) && t <= now && s.Held() && s.button != c.comboKey
    ensures MeetsDeadlines(c, s, now)
  {
    assert s.release in Deadlines(c, s);
    if s.repeat != 0 {
      assert s.repeat in Deadlines(c, s);
    }
  }

  /**
   A poll does something exactly when a deadline has come. If it does nothing, it asks to be called
   at the first deadline, or after a second. None of its mixed subtractions wraps.
   */
  lemma PollHitsTheDeadlines(c: Config, s: Keys, t: Time, now: Time)
    requires Sound(s, t) && t <= now
    ensures MeetsDeadlines(c, s, now)
  {
    if s.Held() {
      if s.button == c.comboKey {
        ComboKeyMeetsDeadlines(c, s, t, now);
      } else {
        OtherKeyMeetsDeadlines(c, s, t, now);
      }
    }
  }

  /** A key that has repeated itself never gets a synthesised release. */
  lemma RepeatedKeysAreNotReleased(c: Config, s: Keys, t: Time, now: Time)
    requires Sound(s, t) && t <= now
    requires s.repeat != 0 && s.button != c.comboKey
    ensures forall e :: e in Poll(c, s, now).1 ==> e.Repeated?
  {
  }

  /** Polls one after another, with nothing else in between. */
  function Polls(c: Config, s: Keys, times: seq<Time>): Keys
    decreases |times|
  {
    if times == [] then s else Polls(c, Poll(c, s, times[0]).0, times[1..])
  }

  ghost predicate Ascending(times: seq<Time>, t: Time)
    decreases |times|
  {
    times == [] || (t <= times[0] && Ascending(times[1..], times[0]))
  }

  /** The time by which the held button is to be cleared. */
  function Deadline(c: Config, s: Keys): int {
    if s.button == c.comboKey then s.update + c.comboTimeout else s.release
  }

  /** Without a combo timeout nothing ever clears the combo key. */
  predicate Clears(c: Config, s: Keys) {
    s.button != c.comboKey || c.comboTimeout > 0
  }

  lemma PollClears(c: Config, s: Keys, t: Time, now: Time)
    requires Sound(s, t) && t <= now && s.Held()
    ensures Poll(c, s, now).0.Held() <==> !Clears(c, s) || now < Deadline(c, s)
    ensures var s' := Poll(c, s, now).0;
            s'.Held() ==> Deadline(c, s') == Deadline(c, s) && s'.button == s.button && (s.repeat == 0 ==> s' == s)
  {
    PollHitsTheDeadlines(c, s, t, now);
  }

  lemma {:induction false} IdleStaysIdle(c: Config, s: Keys, times: seq<Time>)
    requires !s.Held()
    ensures !Polls(c, s, times).Held()
    decreases |times|
  {
    if times != [] {
      IdleStaysIdle(c, Poll(c, s, times[0]).0, times[1..]);
    }
  }

  /** A poll that leaves a button held asks for the next one by the deadline, unless a repeat is due first. */
  lemma PollWaits(c: Config, s: Keys, t: Time, now: Time)
    requires Sound(s, t) && t <= now && s.Held() && Clears(c, s) && Poll(c, s, now).0.Held()
    ensures Poll(c, s, now).2 <= SIGNAL_WAIT_TIME
    ensures s.repeat == 0 ==> now + Poll(c, s, now).2 <= Deadline(c, s)
  {
    PollHitsTheDeadlines(c, s, t, now);
    if s.repeat == 0 {
      assert Deadline(c, s) in Deadlines(c, s);
    }
  }

  /** A held button stays held exactly as long as every poll comes before its deadline. */
  lemma {:induction false} HeldUntilTheDeadline(c: Config, s: Keys, t: Time, times: seq<Time>)
    requires Sound(s, t) && s.Held() && Ascending(times, t)
    ensures Polls(c, s, times).Held() <==> !Clears(c, s) || forall i :: 0 <= i < |times| ==> times[i] < Deadline(c, s)
    decreases |times|
  {
    if times != [] {
      var s' := Poll(c, s, times[0]).0;
      PollClears(c, s, t, times[0]);
      StepKeepsSound(s, t, Call(times[0], c, TimeUp));
      if s'.Held() {
        HeldUntilTheDeadline(c, s', times[0], times[1..]);
        assert forall i :: 0 <= i < |times| ==> times[i] == if i == 0 then times[0] else times[1..][i - 1];
      } else {
        IdleStaysIdle(c, s', times[1..]);
      }
    }
  }

  /** Each poll comes no later than the one before it asked for, the first one by due. */
  ghost predicate OnTime(c: Config, s: Keys, t: Time, due: int, times: seq<Time>)
    decreases |times|
  {
    times == []
    || (t <= times[0] <= due
        && OnTime(c, Poll(c, s, times[0]).0, times[0], times[0] + Poll(c, s, times[0]).2, times[1..]))
  }

  /**
   Bounded hold. When polls come on time, the poll that clears a held button is at its deadline or
   less than a second later. Without a pending repeat it is exactly at the deadline, if the first
   poll is due by then.
   */
  lemma {:induction false} BoundedHold(c: Config, s: Keys, t: Time, due: int, times: seq<Time>) returns (k: nat)
    requires Sound(s, t) && s.Held() && Clears(c, s)
    requires t < Deadline(c, s) && due <= t + SIGNAL_WAIT_TIME
    requires OnTime(c, s, t, due, times)
    requires !Polls(c, s, times).Held()
    ensures k < |times|
    ensures Polls(c, s, times[..k]).Held() && !Polls(c, s, times[..k + 1]).Held()
    ensures Deadline(c, s) <= times[k] < Deadline(c, s) + SIGNAL_WAIT_TIME
    ensures s.repeat == 0 && due <= Deadline(c, s) ==> times[k] == Deadline(c, s)
    decreases |times|
  {
    var now := times[0];
    var (s', out, delay) := Poll(c, s, now);
    PollClears(c, s, t, now);
    StepKeepsSound(s, t, Call(now, c, TimeUp));
    assert times[..1] == [now] && [now][1..] == [];
    assert Polls(c, s, times[..1]) == s';
    if !s'.Held() {
      k := 0;
    } else {
      PollWaits(c, s, t, now);
      k := BoundedHold(c, s', now, now + delay, times[1..]);
      assert times[..k + 1][1..] == times[1..][..k];
      assert times[..k + 2][1..] == times[1..][..k + 1];
      k := k + 1;
    }
  }

  /** The combo key with a combo timeout of zero: no run of polls ever clears it. */
  lemma StuckComboKey(c: Config, s: Keys, t: Time, times: seq<Time>)
    requires Sound(s, t) && Ascending(times, t)
    requires s.Held() && s.button == c.comboKey && c.comboTimeout == 0
    ensures Polls(c, s, times).Held()
  {
    HeldUntilTheDeadline(c, s, t, times);
  }

  /** That state is one press away from rest. */
  lemma StuckFromRest(c: Config, now: Time, times: seq<Time>)
    requires IsKey(c.comboKey) && c.comboTimeout == 0 && Ascending(times, now)
    ensures var s := Press(c, IDLE, now, c.comboKey, 0).0;
            s.Held() && s.button == c.comboKey && Polls(c, s, times).Held()
  {
    StuckComboKey(c, Press(c, IDLE, now, c.comboKey, 0).0, now, times);
  }

  /**
   A key pressed while no button is held is queued as it is, unless it is the combo key. There is
   one more exception: UNKNOWN as combo key, which is documented to disable combos, matches "no
   button held" and turns three keys into others as long as the combo timeout is not zero.
   */
  lemma LonePress(c: Config, s: Keys, now: Time, key: int)
    requires Sound(s, now) && !s.Held() && IsKey(key)
    ensures Press(c, s, now, key, 0).1 == [Down(key, now), Pressed(key, 0)] <==>
            key != c.comboKey
            && !(c.comboKey == UNKNOWN_KEY && c.comboTimeout > 0 && (key == SELECT || key == PAUSE || key == PLAY))
  {
    assert ComboApplies(c, s, 0) <==> c.comboTimeout > 0 && c.comboKey == UNKNOWN_KEY;
    var out := Press(c, s, now, key, 0).1;
    if key == c.comboKey {
      assert |out| == 1;
    } else {
      assert out[1].key == if ComboApplies(c, s, 0) then Combined(key) else key;
    }
  }

  /** SELECT with combos "disabled": the client is told EXIT. */
  lemma LonePressChanged()
    ensures Press(Config(UNKNOWN_KEY, 1000, 0, 0, 500), IDLE, 1000, SELECT, 0).1 == [Down(EXIT, 1000), Pressed(EXIT, 0)]
  {
  }

  /** CLibCEC::CheckKeypressTimeout polls every client and takes the shortest delay. */
  method CheckClients(configs: seq<Config>, clients: seq<Keys>, now: Time) returns (polled: seq<Keys>, delay: nat)
    requires |configs| == |clients|
    ensures |polled| == |clients|
    ensures forall i :: 0 <= i < |clients| ==> polled[i] == Poll(configs[i], clients[i], now).0
    ensures forall i :: 0 <= i < |clients| ==> delay <= Poll(configs[i], clients[i], now).2
    ensures delay == SIGNAL_WAIT_TIME || exists i :: 0 <= i < |clients| && delay == Poll(configs[i], clients[i], now).2
    ensures delay <= SIGNAL_WAIT_TIME
  {
    polled, delay := [], SIGNAL_WAIT_TIME;
    for n := 0 to |clients|
      invariant |polled| == n
      invariant forall i :: 0 <= i < n ==> polled[i] == Poll(configs[i], clients[i], now).0
      invariant forall i :: 0 <= i < n ==> delay <= Poll(configs[i], clients[i], now).2
      invariant delay == SIGNAL_WAIT_TIME || exists i :: 0 <= i < n && delay == Poll(configs[i], clients[i], now).2
      invariant delay <= SIGNAL_WAIT_TIME
    {
      var (s, _, t) := Poll(configs[n], clients[n], now);
      polled := polled + [s];
      if t < delay {
        delay := t;
      }
    }
  }

  /** With several clients, the shortest delay runs past no deadline of a client that did nothing. */
  lemma ShortestDelay(configs: seq<Config>, clients: seq<Keys>, now: Time, delay: nat, i: nat, d: int)
    requires |configs| == |clients| && i < |clients| && Sound(clients[i], now)
    requires delay <= Poll(configs[i], clients[i], now).2
    requires Poll(configs[i], clients[i], now).0 == clients[i] && Poll(configs[i], clients[i], now).1 == []
    requires d in Deadlines(configs[i], clients[i])
    ensures now + delay <= d
  {
    PollHitsTheDeadlines(configs[i], clients[i], now, now);
  }
}
