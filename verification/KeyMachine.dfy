/** The fields and methods of a client that make up the key press machine. */
module KeyMachine {
  import opened KeyPress

  class KeyState {
    var config: Config
    var button: int
    var initial: int
    var update: int
    var repeat: int
    var release: int
    var pressed: int
    var released: int
    var seenRelease: bool
    var events: seq<Event>

    ghost function Abs(): Keys reads this {
      Keys(button, initial, update, repeat, release, pressed, seenRelease)
    }

    constructor (c: Config)
      ensures config == c && Abs() == IDLE && released == 0 && events == []
    {
      config := c;
      button, seenRelease, events := UNKNOWN_KEY, false, [];
      initial, update, repeat, release, pressed, released := 0, 0, 0, 0, 0, 0;
    }

    method Clear()
      modifies this`button, this`initial, this`update, this`repeat, this`release, this`pressed, this`released
      ensures Abs() == old(Abs()).Cleared() && released == 0
    {
      button := UNKNOWN_KEY;
      initial, update, repeat, release, pressed, released := 0, 0, 0, 0, 0, 0;
    }

    method AddKeyRelease(now: Time, sendCombo: bool, isRelease: bool)
      modifies this
      ensures Abs() == Lift(config, old(Abs()), now, sendCombo, isRelease).0
      ensures events == old(events) + Lift(config, old(Abs()), now, sendCombo, isRelease).1
      ensures config == old(config)
    {
      var keycode, duration := UNKNOWN_KEY, 0;
      if isRelease {
        seenRelease := true;
      }
      if button != UNKNOWN_KEY {
        var sinceUpdate := ToUint32(now - update);
        duration := ToUint32(now - initial);
        if sinceUpdate > config.comboTimeout || config.comboTimeout == 0 || button != config.comboKey || sendCombo {
          keycode := button;
          Clear();
        }
      }
      if isRelease && config.repeatRate != 0 {
        return;
      }
      if keycode != UNKNOWN_KEY {
        events := events + [Released(keycode, duration, now)];
      }
    }

    method AddKey(now: Time, key: int, duration: Uint32)
      modifies this
      ensures Abs() == Press(config, old(Abs()), now, key, duration).0
      ensures events == old(events) + Press(config, old(Abs()), now, key, duration).1
      ensures config == old(config)
    {
      if !IsKey(key) {
        AddKeyRelease(now, false, false);
        return;
      }
      var transmitKey := key;
      if config.comboTimeout > 0 && button == config.comboKey && duration == 0 {
        if key == SELECT {
          transmitKey := EXIT;
        } else if key == PAUSE {
          transmitKey := ROOT_MENU;
        } else if key == PLAY {
          transmitKey := DOT;
        } else {
          AddKeyRelease(now, true, false);
        }
      }
      HoldKey(now, key, transmitKey, duration);
    }

    /** The same button again: whether the press counts as a repeat. */
    method Again(now: Time, delay: int) returns (isRepeat: bool)
      modifies this`update, this`release, this`repeat, this`pressed
      ensures Abs() == KeyPress.Again(config, old(Abs()), now, delay)
      ensures isRepeat == (config.repeatRate != 0)
    {
      isRepeat := false;
      update := now;
      release := update + delay;
      if config.repeatRate != 0 {
        if repeat == 0 && pressed > 1 {
          repeat := initial + config.repeatDelay;
        }
        isRepeat := true;
      }
      pressed := pressed + 1;
    }

    /** Another button goes down. */
    method Begin(now: Time, key: int, delay: int)
      modifies this
      ensures Abs() == KeyPress.Begin(old(Abs()), now, key, delay)
      ensures events == old(events) + [Down(key, now)] && config == old(config)
    {
      button := key;
      initial, update, repeat := now, now, 0;
      release := initial + delay;
      pressed, released := 1, 0;
      events := events + [Down(button, now)];
    }

    /** The second half of AddKey. */
    method HoldKey(now: Time, key: int, transmitKey: int, duration: Uint32)
      modifies this
      ensures Abs() == Hold(config, old(Abs()), now, key, transmitKey, duration).0
      ensures events == old(events) + Hold(config, old(Abs()), now, key, transmitKey, duration).1
      ensures config == old(config)
    {
      var isRepeat := false;
      var delay: int := if config.releaseDelay != 0 then config.releaseDelay else BUTTON_TIMEOUT;
      if seenRelease && config.repeatRate == 0 {
        delay := if delay < RELEASE_BACKSTOP_MS then RELEASE_BACKSTOP_MS else delay;
      }
      if button == key {
        isRepeat := Again(now, delay);
      } else {
        if button != transmitKey {
          AddKeyRelease(now, false, false);
        }
        if duration == 0 {
          Begin(now, transmitKey, delay);
        }
      }
      if !isRepeat && (key != config.comboKey || duration > 0) {
        events := events + [Pressed(transmitKey, duration)];
      }
    }

    method CheckKeypressTimeout(now: Time) returns (delay: nat)
      modifies this
      ensures Abs() == Poll(config, old(Abs()), now).0
      ensures events == old(events) + Poll(config, old(Abs()), now).1
      ensures delay == Poll(config, old(Abs()), now).2
      ensures config == old(config)
    {
      var timeout: int := SIGNAL_WAIT_TIME;
      if button == UNKNOWN_KEY {
        return timeout;
      }
      var combo := button == config.comboKey;
      var held := ToUint32(now - initial);
      var event: seq<Event> := [];
      if combo && config.comboTimeout > 0 && ToUint64(now - update) >= config.comboTimeout {
        event := [Released(button, held, now)];
        Clear();
      } else if !combo && release != 0 && now >= release {
        if pressed <= 1 {
          event := [Released(button, held, now)];
        }
        Clear();
      } else if !combo && repeat != 0 && now >= repeat {
        event := [Repeated(button, held, now)];
        repeat := now + config.repeatRate;
        timeout := Sooner(timeout, ToUint64(repeat - now));
      } else {
        if combo && config.comboTimeout > 0 {
          timeout := Sooner(timeout, ToUint64(update - now + config.comboTimeout));
        }
        if !combo && release != 0 {
          timeout := Sooner(timeout, ToUint64(release - now));
        }
        if !combo && repeat != 0 {
          timeout := Sooner(timeout, ToUint64(repeat - now));
        }
        if timeout > SIGNAL_WAIT_TIME {
          timeout := SIGNAL_WAIT_TIME;
        }
      }
      events := events + event;
      return AtLeastOne(timeout);
    }

    method ResetKeypressState()
      modifies this
      ensures Abs() == IDLE && events == old(events) && config == old(config)
    {
      Clear();
      seenRelease := false;
    }
  }
}
