/** What holds in every run of the key press machine, whatever the configuration does. */
module KeyRuns {
  import opened KeyPress

  /** The state at time now, in every run. */
  ghost predicate Sound(s: Keys, now: Time) {
    if !s.Held() then s == IDLE.(seenRelease := s.seenRelease)
    else
      && IsKey(s.button)
      && 0 < s.initial <= s.update <= now
      && s.update < s.release <= s.update + 0x1_0000_0000
      && 1 <= s.pressed
      && (s.repeat == 0 || (0 < s.repeat <= now + 0x1_0000_0000 && s.pressed >= 3))
  }

  /** Calls in the order of the clock, which reads at least t. */
  ghost predicate InOrder(calls: seq<Call>, t: Time)
    decreases |calls|
  {
    calls == [] || (t <= calls[0].at && InOrder(calls[1..], calls[0].at))
  }

  function LastTime(calls: seq<Call>, t: Time): Time {
    if calls == [] then t else calls[|calls| - 1].at
  }

  lemma LiftSound(c: Config, s: Keys, now: Time, sendCombo: bool, isRelease: bool)
    requires Sound(s, now)
    ensures var s' := Lift(c, s, now, sendCombo, isRelease).0; Sound(s', now) && (s'.button == s.button || !s'.Held())
  {
  }

  lemma HoldSound(c: Config, s: Keys, now: Time, key: int, sent: int, duration: Uint32)
    requires Sound(s, now) && IsKey(key) && IsKey(sent)
    ensures Sound(Hold(c, s, now, key, sent, duration).0, now)
  {
    LiftSound(c, s, now, false, false);
  }

  lemma StepKeepsSound(s: Keys, t: Time, call: Call)
    requires Sound(s, t) && t <= call.at
    ensures Sound(Step(s, call).0, call.at)
  {
    var c, now := call.config, call.at;
    match call.input
    case KeyDown(key, duration) =>
      LiftSound(c, s, now, false, false);
      LiftSound(c, s, now, true, false);
      if IsKey(key) {
        HoldSound(c, s, now, key, key, duration);
        HoldSound(c, s, now, key, Combined(key), duration);
        HoldSound(c, Lift(c, s, now, true, false).0, now, key, key, duration);
      }
    case KeyUp(sendCombo, isRelease) => LiftSound(c, s, now, sendCombo, isRelease);
    case TimeUp =>
    case Detach =>
  }

  lemma {:induction false} RunKeepsSound(s: Keys, t: Time, calls: seq<Call>)
    requires Sound(s, t) && InOrder(calls, t)
    ensures Sound(Run(s, calls).0, LastTime(calls, t))
    decreases |calls|
  {
    if calls != [] {
      StepKeepsSound(s, t, calls[0]);
      RunKeepsSound(Step(s, calls[0]).0, calls[0].at, calls[1..]);
    }
  }

  /** After every run from rest, all timers and the counter are zero exactly when no button is held. */
  lemma TimersMeanHeld(calls: seq<Call>, t: Time)
    requires InOrder(calls, t)
    ensures var s := Run(IDLE, calls).0;
            && (s.Held() <==> s.initial != 0) && (s.Held() <==> s.update != 0)
            && (s.Held() <==> s.release != 0) && (s.Held() <==> s.pressed != 0)
            && (s.repeat != 0 ==> s.Held() && s.pressed >= 3)
  {
    RunKeepsSound(IDLE, t, calls);
  }

  // ---------- press cycles ----------

  /** A press cycle that is open: the button that went down, and when. */
  datatype Cycle = Closed | Open(key: int, since: int)

  /**
   The rules of press cycles. A release needs an open cycle of its key, carries the time since the
   button went down, and ends the cycle. A press of zero duration is that of the button held.
   */
  ghost predicate Allowed(c: Cycle, e: Event) {
    match e
    case Down(key, at) => true
    case Pressed(key, duration) => duration == 0 ==> c.Open? && c.key == key
    case Released(key, duration, at) => c.Open? && c.key == key && duration == ToUint32(at - c.since)
    case Repeated(key, duration, at) => c.Open? && c.key == key && duration == ToUint32(at - c.since)
  }

  function Next(c: Cycle, e: Event): Cycle {
    match e
    case Down(key, at) => Open(key, at)
    case Released(_, _, _) => Closed
    case _ => c
  }

  ghost predicate Accepted(c: Cycle, events: seq<Event>)
    decreases |events|
  {
    events == [] || (Allowed(c, events[0]) && Accepted(Next(c, events[0]), events[1..]))
  }

  function After(c: Cycle, events: seq<Event>): Cycle
    decreases |events|
  {
    if events == [] then c else After(Next(c, events[0]), events[1..])
  }

  lemma {:induction false} AcceptedConcat(c: Cycle, xs: seq<Event>, ys: seq<Event>)
    requires Accepted(c, xs) && Accepted(After(c, xs), ys)
    ensures Accepted(c, xs + ys) && After(c, xs + ys) == After(After(c, xs), ys)
    decreases |xs|
  {
    if xs == [] {
      assert xs + ys == ys;
    } else {
      AcceptedConcat(Next(c, xs[0]), xs[1..], ys);
      assert (xs + ys)[1..] == xs[1..] + ys;
    }
  }

  /** A held button is the one of the open cycle. */
  ghost predicate Matches(s: Keys, c: Cycle) {
    s.Held() ==> c == Open(s.button, s.initial)
  }

  lemma AcceptedOne(c: Cycle, e: Event)
    requires Allowed(c, e)
    ensures Accepted(c, [e]) && After(c, [e]) == Next(c, e)
  {
    assert [e][1..] == [];
  }

  lemma LiftAccepted(c: Config, s: Keys, now: Time, sendCombo: bool, isRelease: bool, cycle: Cycle)
    requires Sound(s, now) && Matches(s, cycle)
    ensures var (s', out) := Lift(c, s, now, sendCombo, isRelease);
            Accepted(cycle, out) && Matches(s', After(cycle, out))
  {
    var (s', out) := Lift(c, s, now, sendCombo, isRelease);
    if out != [] {
      AcceptedOne(cycle, out[0]);
    }
  }

  lemma HoldAccepted(c: Config, s: Keys, now: Time, key: int, sent: int, duration: Uint32, cycle: Cycle)
    requires Sound(s, now) && Matches(s, cycle) && IsKey(key)
    requires duration == 0 && s.button == key && key != c.comboKey ==> sent == key
    ensures var (s', out) := Hold(c, s, now, key, sent, duration);
            Accepted(cycle, out) && Matches(s', After(cycle, out))
  {
    var press: seq<Event> := if key != c.comboKey || duration > 0 then [Pressed(sent, duration)] else [];
    if s.button == key {
      if press != [] {
        AcceptedOne(cycle, press[0]);
      }
    } else {
      var (s', out) := if s.button != sent then Lift(c, s, now, false, false) else (s, []);
      LiftAccepted(c, s, now, false, false, cycle);
      var cycle' := After(cycle, out);
      var down: seq<Event> := if duration == 0 then [Down(sent, now)] else [];
      if down != [] {
        AcceptedOne(cycle', down[0]);
      }
      AcceptedConcat(cycle, out, down);
      if press != [] {
        AcceptedOne(After(cycle', down), press[0]);
      }
      AcceptedConcat(cycle, out + down, press);
      assert down == [] ==> out + down == out;
    }
  }

  lemma PressAccepted(c: Config, s: Keys, now: Time, key: int, duration: Uint32, cycle: Cycle)
    requires Sound(s, now) && Matches(s, cycle) && IsKey(key)
    ensures var (s', out) := Press(c, s, now, key, duration);
            Accepted(cycle, out) && Matches(s', After(cycle, out))
  {
    if !ComboApplies(c, s, duration) {
      HoldAccepted(c, s, now, key, key, duration, cycle);
    } else if Combined(key) != key {
      HoldAccepted(c, s, now, key, Combined(key), duration, cycle);
    } else {
      var (s1, out1) := Lift(c, s, now, true, false);
      LiftAccepted(c, s, now, true, false, cycle);
      HoldAccepted(c, s1, now, key, key, duration, After(cycle, out1));
      AcceptedConcat(cycle, out1, Hold(c, s1, now, key, key, duration).1);
    }
  }

  lemma StepAccepted(s: Keys, t: Time, call: Call, cycle: Cycle)
    requires Sound(s, t) && t <= call.at && Matches(s, cycle)
    ensures var (s', out) := Step(s, call); Accepted(cycle, out) && Matches(s', After(cycle, out))
  {
    match call.input
    case KeyDown(key, duration) =>
      if IsKey(key) {
        PressAccepted(call.config, s, call.at, key, duration, cycle);
      } else {
        LiftAccepted(call.config, s, call.at, false, false, cycle);
      }
    case KeyUp(sendCombo, isRelease) => LiftAccepted(call.config, s, call.at, sendCombo, isRelease, cycle);
    case TimeUp =>
      var (s', out, _) := Poll(call.config, s, call.at);
      if out != [] {
        AcceptedOne(cycle, out[0]);
      }
    case Detach =>
  }

  lemma {:induction false} RunAccepted(s: Keys, t: Time, calls: seq<Call>, cycle: Cycle)
    requires Sound(s, t) && InOrder(calls, t) && Matches(s, cycle)
    ensures var (s', out) := Run(s, calls); Accepted(cycle, out) && Matches(s', After(cycle, out))
    decreases |calls|
  {
    if calls != [] {
      var (s1, out1) := Step(s, calls[0]);
      StepKeepsSound(s, t, calls[0]);
      StepAccepted(s, t, calls[0], cycle);
      var (s2, out2) := Run(s1, calls[1..]);
      RunAccepted(s1, calls[0].at, calls[1..], After(cycle, out1));
      AcceptedConcat(cycle, out1, out2);
    }
  }

  lemma {:induction false} AcceptedPrefix(c: Cycle, events: seq<Event>, i: nat)
    requires Accepted(c, events) && i < |events|
    ensures Allowed(After(c, events[..i]), events[i])
    decreases i
  {
    if i > 0 {
      AcceptedPrefix(Next(c, events[0]), events[1..], i - 1);
      assert events[..i][1..] == events[1..][..i - 1];
    }
  }

  /** An open cycle goes back to the last time its button went down. */
  lemma {:induction false} OpenedBy(c: Cycle, events: seq<Event>) returns (i: nat)
    requires After(c, events).Open?
    ensures i <= |events|
    ensures i == |events| ==> After(c, events) == c
    ensures i < |events| ==> events[i].Down? && After(c, events) == Open(events[i].key, events[i].at)
    ensures forall j :: 0 <= j < |events| && (i == |events| || i <= j) ==> !events[j].Released?
    ensures forall j :: 0 <= j < |events| && (i == |events| || i < j) ==> !events[j].Down?
    decreases |events|
  {
    if events == [] {
      i := 0;
    } else {
      var k := OpenedBy(Next(c, events[0]), events[1..]);
      assert forall j :: 1 <= j < |events| ==> events[j] == events[1..][j - 1];
      i := if k < |events| - 1 then k + 1 else if events[0].Down? then 0 else |events|;
    }
  }

  /** Event r of the list releases what event d put down, and nothing in between does either. */
  ghost predicate Releases(out: seq<Event>, d: nat, r: nat) {
    && d < r < |out| && out[d].Down? && out[r].Released?
    && out[r].key == out[d].key && out[r].duration == ToUint32(out[r].at - out[d].at)
    && forall j :: d < j < r ==> !out[j].Released? && !out[j].Down?
  }

  lemma AcceptedRelease(out: seq<Event>, r: nat) returns (d: nat)
    requires Accepted(Closed, out) && r < |out| && out[r].Released?
    ensures Releases(out, d, r)
  {
    AcceptedPrefix(Closed, out, r);
    d := OpenedBy(Closed, out[..r]);
    assert forall j :: 0 <= j < r ==> out[j] == out[..r][j];
  }

  /**
   In every run from rest, a release is for the button that last went down, carries the time since
   then, and is the only one since then.
   */
  lemma ReleaseEndsItsPress(calls: seq<Call>, t: Time, r: nat) returns (d: nat)
    requires InOrder(calls, t)
    requires r < |Run(IDLE, calls).1| && Run(IDLE, calls).1[r].Released?
    ensures Releases(Run(IDLE, calls).1, d, r)
  {
    RunAccepted(IDLE, t, calls, Closed);
    d := AcceptedRelease(Run(IDLE, calls).1, r);
  }
}
