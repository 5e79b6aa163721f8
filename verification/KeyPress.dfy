/**
 The key press machine of a client: the button that is held, its timers and counters, the combo
 key, auto-repeat and the releases that are synthesised when no release arrives.

 The functions say what one call does to the state and which key presses it queues. Each call
 reads the clock once.
 */
module KeyPress {

  const SELECT := 0x00
  const ROOT_MENU := 0x09
  const EXIT := 0x0D
  const DOT := 0x2A
  const PLAY := 0x44
  const STOP := 0x45
  const PAUSE := 0x46
  const MAX_KEY := 0x96
  const UNKNOWN_KEY := 0xFF

  const BUTTON_TIMEOUT := 500
  const RELEASE_BACKSTOP_MS := 5000
  const SIGNAL_WAIT_TIME := 1000

  /** A monotonic clock in milliseconds, far from the end of its 64 bits. */
  type Time = t: int | 0 < t < 0x4000_0000_0000_0000 witness 1

  type Uint32 = u: int | 0 <= u < 0x1_0000_0000

  function ToUint32(x: int): Uint32 {
    x % 0x1_0000_0000
  }

  /** Signed operands meet unsigned ones in CheckKeypressTimeout, and wrap at 64 bits. */
  function ToUint64(x: int): nat {
    x % 0x1_0000_0000_0000_0000
  }

  datatype Config = Config(
    comboKey: int,
    comboTimeout: Uint32,
    repeatRate: Uint32,
    repeatDelay: Uint32,
    releaseDelay: Uint32)

  /** Zero is "not set" in every timer. */
  datatype Keys = Keys(
    button: int,
    initial: int,
    update: int,
    repeat: int,
    release: int,
    pressed: int,
    seenRelease: bool)
  {
    predicate Held() {
      button != UNKNOWN_KEY
    }

    function Cleared(): Keys {
      Keys(UNKNOWN_KEY, 0, 0, 0, 0, 0, seenRelease)
    }
  }

  const IDLE: Keys := Keys(UNKNOWN_KEY, 0, 0, 0, 0, 0, false)

  /**
   What a call leaves behind, in order. Down marks that the held button was set and is not
   queued. The others are queued key presses, named after the statement that queues them.
   */
  datatype Event =
    | Down(key: int, at: Time)
    | Pressed(key: int, duration: Uint32)
    | Released(key: int, duration: Uint32, at: Time)
    | Repeated(key: int, duration: Uint32, at: Time)

  /** AddKey(bSendComboKey, bButtonRelease). */
  function Lift(c: Config, s: Keys, now: Time, sendCombo: bool, isRelease: bool): (Keys, seq<Event>) {
    var s' := s.(seenRelease := s.seenRelease || isRelease);
    if !s.Held()
       || (ToUint32(now - s.update) <= c.comboTimeout && c.comboTimeout != 0 && s.button == c.comboKey && !sendCombo)
    then (s', [])
    else (s'.Cleared(), if isRelease && c.repeatRate != 0 then []
                        else [Released(s.button, ToUint32(now - s.initial), now)])
  }

  /** The delay after which a release is synthesised for a held key. */
  function ReleaseDelay(c: Config, s: Keys): (d: int)
    ensures 0 < d <= 0x1_0000_0000
    ensures s.seenRelease && c.repeatRate == 0 ==> d >= RELEASE_BACKSTOP_MS
  {
    var d := if c.releaseDelay != 0 then c.releaseDelay else BUTTON_TIMEOUT;
    if s.seenRelease && c.repeatRate == 0 && d < RELEASE_BACKSTOP_MS then RELEASE_BACKSTOP_MS else d
  }

  /** Whether the press follows a held combo key. */
  predicate ComboApplies(c: Config, s: Keys, duration: Uint32) {
    c.comboTimeout > 0 && s.button == c.comboKey && duration == 0
  }

  /** The key a combo stands for: the key itself when there is no such combo. */
  function Combined(key: int): int {
    if key == SELECT then EXIT else if key == PAUSE then ROOT_MENU else if key == PLAY then DOT else key
  }

  predicate IsKey(key: int) {
    SELECT <= key <= MAX_KEY
  }

  /** The same button again. */
  function Again(c: Config, s: Keys, now: Time, delay: int): Keys {
    s.(update := now, release := now + delay, pressed := s.pressed + 1,
       repeat := if c.repeatRate != 0 && s.repeat == 0 && s.pressed > 1 then s.initial + c.repeatDelay else s.repeat)
  }

  /** Another button. */
  function Begin(s: Keys, now: Time, key: int, delay: int): Keys {
    s.(button := key, initial := now, update := now, repeat := 0, release := now + delay, pressed := 1)
  }

  /** The second half of AddKey(key), once it is known which key to send for it. */
  function Hold(c: Config, s: Keys, now: Time, key: int, sent: int, duration: Uint32): (Keys, seq<Event>) {
    var delay := ReleaseDelay(c, s);
    var press := if key != c.comboKey || duration > 0 then [Pressed(sent, duration)] else [];
    if s.button == key then (Again(c, s, now, delay), if c.repeatRate == 0 then press else [])
    else
      var (s', out) := if s.button != sent then Lift(c, s, now, false, false) else (s, []);
      if duration == 0 then
        (Begin(s', now, sent, delay), out + [Down(sent, now)] + press)
      else (s', out + press)
  }

  /** AddKey(key). */
  function Press(c: Config, s: Keys, now: Time, key: int, duration: Uint32): (Keys, seq<Event>) {
    if !IsKey(key) then Lift(c, s, now, false, false)
    else if !ComboApplies(c, s, duration) then Hold(c, s, now, key, key, duration)
    else if Combined(key) != key then Hold(c, s, now, key, Combined(key), duration)
    else
      var (s1, out1) := Lift(c, s, now, true, false);
      var (s2, out2) := Hold(c, s1, now, key, key, duration);
      (s2, out1 + out2)
  }

  function Sooner(a: nat, b: nat): nat {
    if b < a then b else a
  }

  function AtLeastOne(t: nat): nat {
    if t < 1 then 1 else t
  }

  /** CheckKeypressTimeout: the state, what is queued, and when it wants to be called again. */
  function Poll(c: Config, s: Keys, now: Time): (Keys, seq<Event>, nat) {
    var held := ToUint32(now - s.initial);
    if !s.Held() then (s, [], SIGNAL_WAIT_TIME)
    else if s.button == c.comboKey && c.comboTimeout > 0 && ToUint64(now - s.update) >= c.comboTimeout then
      (s.Cleared(), [Released(s.button, held, now)], SIGNAL_WAIT_TIME)
    else if s.button != c.comboKey && s.release != 0 && now >= s.release then
      (s.Cleared(), if s.pressed <= 1 then [Released(s.button, held, now)] else [], SIGNAL_WAIT_TIME)
    else if s.button != c.comboKey && s.repeat != 0 && now >= s.repeat then
      var next := now + c.repeatRate;
      (s.(repeat := next), [Repeated(s.button, held, now)], AtLeastOne(Sooner(SIGNAL_WAIT_TIME, ToUint64(next - now))))
    else
      var t1 := if s.button == c.comboKey && c.comboTimeout > 0
                then Sooner(SIGNAL_WAIT_TIME, ToUint64(s.update - now + c.comboTimeout)) else SIGNAL_WAIT_TIME;
      var t2 := if s.button != c.comboKey && s.release != 0 then Sooner(t1, ToUint64(s.release - now)) else t1;
      var t3 := if s.button != c.comboKey && s.repeat != 0 then Sooner(t2, ToUint64(s.repeat - now)) else t2;
      (s, [], AtLeastOne(t3))
  }

  datatype Input =
    | KeyDown(key: int, duration: Uint32)
    | KeyUp(sendCombo: bool, isRelease: bool)
    | TimeUp
    | Detach

  /** One call, the time at which it reads the clock, and the configuration it finds. */
  datatype Call = Call(at: Time, config: Config, input: Input)

  function Step(s: Keys, call: Call): (Keys, seq<Event>) {
    match call.input
    case KeyDown(key, duration) => Press(call.config, s, call.at, key, duration)
    case KeyUp(sendCombo, isRelease) => Lift(call.config, s, call.at, sendCombo, isRelease)
    case TimeUp => var (s', out, _) := Poll(call.config, s, call.at); (s', out)
    case Detach => (IDLE, [])
  }

  function Run(s: Keys, calls: seq<Call>): (Keys, seq<Event>)
    decreases |calls|
  {
    if calls == [] then (s, [])
    else
      var (s1, out1) := Step(s, calls[0]);
      var (s2, out2) := Run(s1, calls[1..]);
      (s2, out1 + out2)
  }
}
