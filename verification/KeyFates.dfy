/** What becomes of a button that went down: over any run, whether a release is queued for it. */
module KeyFates {
  import opened KeyPress
  import opened KeyRuns

  /** The ways in which a button is forgotten without a release. */
  datatype Cause =
    | PolledAway     // a poll found its release due, after it was pressed more than once
    | RepeatMode     // its release arrived while auto-repeat is on
    | Detached       // the key press state was reset
    | Replaced       // another button, or its own combo, went down in its place

  datatype Ending = Stays | LetGo | Forgotten(cause: Cause)

  /** The combo key waits for its combo: AddKey(false) leaves it held. */
  predicate AwaitsCombo(c: Config, s: Keys, now: Time) {
    c.comboTimeout != 0 && s.button == c.comboKey && ToUint32(now - s.update) <= c.comboTimeout
  }

  /** What a call does to the button that is held, by the guards of the branch it takes. */
  function EndingOf(s: Keys, call: Call): Ending {
    var c, now := call.config, call.at;
    match call.input
    case Detach => Forgotten(Detached)
    case KeyUp(sendCombo, isRelease) =>
      if AwaitsCombo(c, s, now) && !sendCombo then Stays
      else if isRelease && c.repeatRate != 0 then Forgotten(RepeatMode) else LetGo
    case TimeUp =>
      if s.button == c.comboKey then
        if c.comboTimeout > 0 && now - s.update >= c.comboTimeout then LetGo else Stays
      else if now < s.release then Stays
      else if s.pressed <= 1 then LetGo else Forgotten(PolledAway)
    case KeyDown(key, duration) =>
      if !IsKey(key) then if AwaitsCombo(c, s, now) then Stays else LetGo
      else if s.button == c.comboKey && c.comboTimeout > 0 && duration == 0 then
        if Combined(key) == key then LetGo
        else if s.button == key then Stays
        else if s.button == Combined(key) || AwaitsCombo(c, s, now) then Forgotten(Replaced) else LetGo
      else if s.button == key || AwaitsCombo(c, s, now) then Stays else LetGo
  }

  /** What the rest of a run does to it. A button that stays is still held at the end. */
  function Fate(s: Keys, calls: seq<Call>): Ending
    decreases |calls|
  {
    if calls == [] then Stays
    else match EndingOf(s, calls[0])
      case Stays => Fate(Step(s, calls[0]).0, calls[1..])
      case e => e
  }

  // ---------- in terms of events ----------

  predicate IsTurn(e: Event) {
    e.Down? || e.Released?
  }

  /** A release comes, and no button goes down before it. */
  ghost predicate ReleasedFirst(events: seq<Event>) {
    exists r :: 0 <= r < |events| && events[r].Released? && forall j :: 0 <= j < r ==> !IsTurn(events[j])
  }

  ghost predicate NoTurn(events: seq<Event>) {
    forall j :: 0 <= j < |events| ==> !IsTurn(events[j])
  }

  lemma QuietPrefix(xs: seq<Event>, ys: seq<Event>)
    requires NoTurn(xs)
    ensures ReleasedFirst(xs + ys) <==> ReleasedFirst(ys)
  {
    if ReleasedFirst(ys) {
      var r :| 0 <= r < |ys| && ys[r].Released? && forall j :: 0 <= j < r ==> !IsTurn(ys[j]);
      assert (xs + ys)[|xs| + r] == ys[r];
    }
    if ReleasedFirst(xs + ys) {
      var r :| 0 <= r < |xs + ys| && (xs + ys)[r].Released? && forall j :: 0 <= j < r ==> !IsTurn((xs + ys)[j]);
      assert r >= |xs| && ys[r - |xs|] == (xs + ys)[r];
      forall j | 0 <= j < r - |xs|
        ensures !IsTurn(ys[j])
      {
        assert (xs + ys)[|xs| + j] == ys[j];
      }
    }
  }

  lemma FirstDecides(xs: seq<Event>, ys: seq<Event>)
    requires xs != [] && IsTurn(xs[0])
    ensures ReleasedFirst(xs + ys) <==> xs[0].Released?
  {
    assert (xs + ys)[0] == xs[0];
  }

  lemma {:induction false} StaysClosed(events: seq<Event>, r: nat)
    requires r <= |events| && forall j :: 0 <= j < r ==> !IsTurn(events[j])
    ensures After(Closed, events[..r]) == Closed
    decreases r
  {
    if r > 0 {
      StaysClosed(events[1..], r - 1);
      assert events[..r][1..] == events[1..][..r - 1];
    }
  }

  /** With no button held, nothing can be released before a button goes down. */
  lemma IdleReleasesNothing(s: Keys, t: Time, calls: seq<Call>)
    requires Sound(s, t) && KeyRuns.InOrder(calls, t) && !s.Held()
    ensures !ReleasedFirst(Run(s, calls).1)
  {
    var out := Run(s, calls).1;
    RunAccepted(s, t, calls, Closed);
    if ReleasedFirst(out) {
      var r :| 0 <= r < |out| && out[r].Released? && forall j :: 0 <= j < r ==> !IsTurn(out[j]);
      AcceptedPrefix(Closed, out, r);
      StaysClosed(out, r);
    }
  }

  /** What each ending looks like from outside. */
  ghost predicate Shows(e: Ending, s: Keys, s': Keys, out: seq<Event>) {
    match e
    case Stays => s'.button == s.button && s'.initial == s.initial && NoTurn(out)
    case LetGo => out != [] && out[0].Released?
    case Forgotten(Replaced) => out != [] && out[0].Down?
    case Forgotten(_) => out == [] && !s'.Held()
  }

  lemma LiftShows(c: Config, s: Keys, t: Time, now: Time, sendCombo: bool, isRelease: bool)
    requires Sound(s, t) && t <= now && s.Held()
    ensures var (s', out) := Lift(c, s, now, sendCombo, isRelease);
            if AwaitsCombo(c, s, now) && !sendCombo then s'.button == s.button && s'.initial == s.initial && out == []
            else !s'.Held() && out == if isRelease && c.repeatRate != 0 then []
                                      else [Released(s.button, ToUint32(now - s.initial), now)]
  {
  }

  lemma PressShows(s: Keys, t: Time, call: Call)
    requires Sound(s, t) && t <= call.at && s.Held() && call.input.KeyDown?
    ensures var (s', out) := Step(s, call); Shows(EndingOf(s, call), s, s', out)
  {
    LiftShows(call.config, s, t, call.at, false, false);
    LiftShows(call.config, s, t, call.at, true, false);
  }

  /** The endings are exactly these, and each is what it says. */
  lemma EndingShows(s: Keys, t: Time, call: Call)
    requires Sound(s, t) && t <= call.at && s.Held()
    ensures var (s', out) := Step(s, call); Shows(EndingOf(s, call), s, s', out)
  {
    match call.input
    case KeyDown(key, duration) => PressShows(s, t, call);
    case KeyUp(sendCombo, isRelease) => LiftShows(call.config, s, t, call.at, sendCombo, isRelease);
    case TimeUp =>
    case Detach =>
  }

  /** A held button is released before another goes down exactly when its fate is to be let go. */
  lemma {:induction false} FateOfHeld(s: Keys, t: Time, calls: seq<Call>)
    requires Sound(s, t) && KeyRuns.InOrder(calls, t) && s.Held()
    ensures ReleasedFirst(Run(s, calls).1) <==> Fate(s, calls) == LetGo
    decreases |calls|
  {
    if calls != [] {
      var (s1, out1) := Step(s, calls[0]);
      var out2 := Run(s1, calls[1..]).1;
      StepKeepsSound(s, t, calls[0]);
      EndingShows(s, t, calls[0]);
      match EndingOf(s, calls[0])
      case Stays =>
        QuietPrefix(out1, out2);
        FateOfHeld(s1, calls[0].at, calls[1..]);
      case LetGo => FirstDecides(out1, out2);
      case Forgotten(Replaced) => FirstDecides(out1, out2);
      case Forgotten(_) =>
        QuietPrefix(out1, out2);
        IdleReleasesNothing(s1, calls[0].at, calls[1..]);
    }
  }

  lemma HoldTurns(c: Config, s: Keys, now: Time, key: int, sent: int, duration: Uint32, d: nat)
    requires IsKey(sent) && d < |Hold(c, s, now, key, sent, duration).1|
    requires Hold(c, s, now, key, sent, duration).1[d].Down?
    ensures var (s', out) := Hold(c, s, now, key, sent, duration); s'.Held() && NoTurn(out[d + 1..])
  {
    var out := Hold(c, s, now, key, sent, duration).1;
    assert s.button != key && duration == 0;
    assert d + 2 >= |out|;
  }

  lemma PressTurns(c: Config, s: Keys, now: Time, key: int, duration: Uint32, d: nat)
    requires IsKey(key) && d < |Press(c, s, now, key, duration).1| && Press(c, s, now, key, duration).1[d].Down?
    ensures var (s', out) := Press(c, s, now, key, duration); s'.Held() && NoTurn(out[d + 1..])
  {
    if !ComboApplies(c, s, duration) {
      HoldTurns(c, s, now, key, key, duration, d);
    } else if Combined(key) != key {
      HoldTurns(c, s, now, key, Combined(key), duration, d);
    } else {
      var (s1, out1) := Lift(c, s, now, true, false);
      var out := Hold(c, s1, now, key, key, duration).1;
      assert Press(c, s, now, key, duration).1 == out1 + out;
      assert d >= |out1| && (out1 + out)[d + 1..] == out[d - |out1| + 1..];
      HoldTurns(c, s1, now, key, key, duration, d - |out1|);
    }
  }

  /** A button that goes down is held after that call, and nothing else turns in it. */
  lemma DownHolds(s: Keys, t: Time, call: Call, d: nat)
    requires Sound(s, t) && t <= call.at && d < |Step(s, call).1| && Step(s, call).1[d].Down?
    ensures Step(s, call).0.Held() && NoTurn(Step(s, call).1[d + 1..])
  {
    match call.input
    case KeyDown(key, duration) =>
      if IsKey(key) {
        PressTurns(call.config, s, call.at, key, duration, d);
      }
    case KeyUp(_, _) =>
    case TimeUp =>
    case Detach =>
  }

  /** Event d of the run is a button going down in call n. */
  ghost predicate GoesDownIn(s: Keys, calls: seq<Call>, d: nat, n: nat) {
    && n < |calls| && |Run(s, calls[..n]).1| <= d < |Run(s, calls[..n + 1]).1|
    && d < |Run(s, calls).1| && Run(s, calls).1[d].Down?
  }

  lemma RunHead(s: Keys, calls: seq<Call>, k: nat)
    requires k < |calls|
    ensures Run(s, calls[..k + 1]) ==
            (var (s1, out1) := Step(s, calls[0]); var (s2, out2) := Run(s1, calls[1..][..k]); (s2, out1 + out2))
    ensures Run(s, calls[..0]) == (s, [])
  {
    assert calls[..k + 1][1..] == calls[1..][..k];
  }

  /** Event d goes down in call n, and whether it is released first is what the calls after that decide. */
  ghost predicate FateIs(s: Keys, calls: seq<Call>, d: nat, n: nat) {
    && GoesDownIn(s, calls, d, n) && Run(s, calls[..n + 1]).0.Held()
    && (ReleasedFirst(Run(s, calls).1[d + 1..]) <==> Fate(Run(s, calls[..n + 1]).0, calls[n + 1..]) == LetGo)
  }

  /** The event is one of the first call, or of the rest of the run. */
  lemma FirstOrLater(s: Keys, calls: seq<Call>, d: nat)
    requires d < |Run(s, calls).1| && Run(s, calls).1[d].Down?
    ensures calls != []
    ensures var (s1, out1) := Step(s, calls[0]);
            if d < |out1| then
              out1[d].Down? && GoesDownIn(s, calls, d, 0) && Run(s, calls[..1]).0 == s1
            else
              d - |out1| < |Run(s1, calls[1..]).1| && Run(s1, calls[1..]).1[d - |out1|].Down?
  {
    RunHead(s, calls, 0);
    assert calls[1..][..0] == [];
  }

  lemma QuietAfter(xs: seq<Event>, ys: seq<Event>, d: nat)
    requires d < |xs| && NoTurn(xs[d + 1..])
    ensures (xs + ys)[d] == xs[d]
    ensures ReleasedFirst((xs + ys)[d + 1..]) <==> ReleasedFirst(ys)
  {
    assert (xs + ys)[d + 1..] == xs[d + 1..] + ys;
    QuietPrefix(xs[d + 1..], ys);
  }

  lemma FateInFirstCall(s: Keys, t: Time, calls: seq<Call>, d: nat)
    requires Sound(s, t) && KeyRuns.InOrder(calls, t) && calls != [] && d < |Run(s, calls).1|
    requires Run(s, calls).1[d].Down? && d < |Step(s, calls[0]).1|
    ensures FateIs(s, calls, d, 0)
  {
    FirstOrLater(s, calls, d);
    var (s1, out1) := Step(s, calls[0]);
    StepKeepsSound(s, t, calls[0]);
    DownHolds(s, t, calls[0], d);
    QuietAfter(out1, Run(s1, calls[1..]).1, d);
    FateOfHeld(s1, calls[0].at, calls[1..]);
  }

  /** The first call moves everything else along. */
  lemma LaterCall(s: Keys, calls: seq<Call>, d: nat, k: nat)
    requires calls != [] && |Step(s, calls[0]).1| <= d
    requires GoesDownIn(Step(s, calls[0]).0, calls[1..], d - |Step(s, calls[0]).1|, k)
    ensures GoesDownIn(s, calls, d, k + 1)
    ensures Run(s, calls[..k + 2]).0 == Run(Step(s, calls[0]).0, calls[1..][..k + 1]).0
    ensures calls[1..][k + 1..] == calls[k + 2..]
    ensures Run(s, calls).1[d + 1..] == Run(Step(s, calls[0]).0, calls[1..]).1[d - |Step(s, calls[0]).1| + 1..]
  {
    RunHead(s, calls, k);
    RunHead(s, calls, k + 1);
  }

  lemma FateInLaterCall(s: Keys, calls: seq<Call>, d: nat, k: nat)
    requires calls != [] && |Step(s, calls[0]).1| <= d
    requires FateIs(Step(s, calls[0]).0, calls[1..], d - |Step(s, calls[0]).1|, k)
    ensures FateIs(s, calls, d, k + 1)
  {
    LaterCall(s, calls, d, k);
  }

  /**
   In every run, every button that goes down: it is released before the next button goes down exactly
   when the calls after the one it went down in let it go.
   */
  lemma {:induction false} FateOfDown(s: Keys, t: Time, calls: seq<Call>, d: nat) returns (n: nat)
    requires Sound(s, t) && KeyRuns.InOrder(calls, t) && d < |Run(s, calls).1| && Run(s, calls).1[d].Down?
    ensures FateIs(s, calls, d, n)
    decreases |calls|
  {
    FirstOrLater(s, calls, d);
    var (s1, out1) := Step(s, calls[0]);
    if d < |out1| {
      n := 0;
      FateInFirstCall(s, t, calls, d);
    } else {
      StepKeepsSound(s, t, calls[0]);
      var k := FateOfDown(s1, calls[0].at, calls[1..], d - |out1|);
      n := k + 1;
      FateInLaterCall(s, calls, d, k);
    }
  }
}
