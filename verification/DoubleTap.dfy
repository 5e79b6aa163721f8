/** CallbackAddKey: the filter that keeps a press or release reported twice from the client. */
module DoubleTap {
  import opened KeyPress

  /** A key that reaches the filter at a time. A press is what has no duration. */
  datatype Tap = Tap(at: nat, key: int, duration: Uint32) {
    predicate IsPress() {
      duration == 0
    }
  }

  /** The last key forwarded, the last press, and the last release since then. Zero is "none". */
  datatype Filter = Filter(key: int, press: nat, release: nat)

  const FRESH: Filter := Filter(UNKNOWN_KEY, 0, 0)

  predicate Forwards(timeout: Uint32, f: Filter, tap: Tap) {
    !(timeout != 0 && f.key == tap.key
      && if tap.IsPress() then tap.at - f.press < timeout
         else f.release != 0 && tap.at - f.release < timeout)
  }

  function After(timeout: Uint32, f: Filter, tap: Tap): Filter {
    if !Forwards(timeout, f, tap) then f
    else if tap.IsPress() then Filter(tap.key, tap.at, 0)
    else Filter(tap.key, f.press, tap.at)
  }

  class KeyCallback {
    var timeout: Uint32
    var lastKey: int
    var lastPressTime: nat
    var lastReleaseTime: nat
    var delivered: seq<Tap>

    function Abs(): Filter reads this {
      Filter(lastKey, lastPressTime, lastReleaseTime)
    }

    constructor (doubleTapTimeout: Uint32)
      ensures Abs() == FRESH && timeout == doubleTapTimeout && delivered == []
    {
      timeout, delivered := doubleTapTimeout, [];
      lastKey, lastPressTime, lastReleaseTime := UNKNOWN_KEY, 0, 0;
    }

    method CallbackAddKey(tap: Tap)
      modifies this`lastKey, this`lastPressTime, this`lastReleaseTime, this`delivered
      ensures Abs() == After(timeout, old(Abs()), tap)
      ensures delivered == old(delivered) + if Forwards(timeout, old(Abs()), tap) then [tap] else []
    {
      if tap.duration == 0 && timeout != 0 && lastKey == tap.key && tap.at - lastPressTime < timeout {
        return;
      }
      if tap.duration != 0 && timeout != 0 && lastKey == tap.key
         && lastReleaseTime != 0 && tap.at - lastReleaseTime < timeout {
        return;
      }
      if tap.duration == 0 {
        lastPressTime, lastReleaseTime := tap.at, 0;
      } else {
        lastReleaseTime := tap.at;
      }
      lastKey := tap.key;
      delivered := delivered + [tap];
    }
  }

  /** The state after a list of taps, and the taps that got through. */
  function State(timeout: Uint32, f: Filter, taps: seq<Tap>): Filter
    decreases |taps|
  {
    if taps == [] then f else State(timeout, After(timeout, f, taps[0]), taps[1..])
  }

  function Filtered(timeout: Uint32, f: Filter, taps: seq<Tap>): seq<Tap>
    decreases |taps|
  {
    if taps == [] then []
    else (if Forwards(timeout, f, taps[0]) then [taps[0]] else [])
         + Filtered(timeout, After(timeout, f, taps[0]), taps[1..])
  }

  /** Whether tap i of the list gets through. */
  predicate Kept(timeout: Uint32, taps: seq<Tap>, i: nat)
    requires i < |taps|
  {
    Forwards(timeout, State(timeout, FRESH, taps[..i]), taps[i])
  }

  lemma {:induction false} StateSnoc(timeout: Uint32, f: Filter, taps: seq<Tap>, i: nat)
    requires i < |taps|
    ensures State(timeout, f, taps[..i + 1]) == After(timeout, State(timeout, f, taps[..i]), taps[i])
    decreases i
  {
    if i == 0 {
      assert taps[..1] == [taps[0]] && [taps[0]][1..] == [];
    } else {
      StateSnoc(timeout, After(timeout, f, taps[0]), taps[1..], i - 1);
      assert taps[..i + 1][1..] == taps[1..][..i] && taps[..i][1..] == taps[1..][..i - 1];
    }
  }

  lemma {:induction false} FilteredSnoc(timeout: Uint32, f: Filter, taps: seq<Tap>, i: nat)
    requires i < |taps|
    ensures Filtered(timeout, f, taps[..i + 1]) == Filtered(timeout, f, taps[..i])
            + if Forwards(timeout, State(timeout, f, taps[..i]), taps[i]) then [taps[i]] else []
    decreases i
  {
    if i == 0 {
      assert taps[..1] == [taps[0]] && [taps[0]][1..] == [];
    } else {
      FilteredSnoc(timeout, After(timeout, f, taps[0]), taps[1..], i - 1);
      assert taps[..i + 1][1..] == taps[1..][..i] && taps[..i][1..] == taps[1..][..i - 1];
    }
  }

  /** Filtering what was filtered already drops nothing more. */
  lemma {:induction false} FilteredTwice(timeout: Uint32, f: Filter, taps: seq<Tap>)
    ensures Filtered(timeout, f, Filtered(timeout, f, taps)) == Filtered(timeout, f, taps)
    ensures State(timeout, f, Filtered(timeout, f, taps)) == State(timeout, f, taps)
    decreases |taps|
  {
    if taps != [] {
      var f' := After(timeout, f, taps[0]);
      var rest := Filtered(timeout, f', taps[1..]);
      FilteredTwice(timeout, f', taps[1..]);
      if Forwards(timeout, f, taps[0]) {
        assert ([taps[0]] + rest)[1..] == rest;
      } else {
        assert [] + rest == rest;
      }
    }
  }

  // ---------- which taps are dropped ----------

  /** The last tap that got through among the first n. */
  function LastKept(timeout: Uint32, taps: seq<Tap>, n: nat): (k: int)
    requires n <= |taps|
    ensures -1 <= k < n
  {
    if n == 0 then -1
    else if Kept(timeout, taps, n - 1) then n - 1
    else LastKept(timeout, taps, n - 1)
  }

  /** The last press that got through among the first n taps. */
  function LastPress(timeout: Uint32, taps: seq<Tap>, n: nat): (p: int)
    requires n <= |taps|
    ensures -1 <= p < n
  {
    if n == 0 then -1
    else if taps[n - 1].IsPress() && Kept(timeout, taps, n - 1) then n - 1
    else LastPress(timeout, taps, n - 1)
  }

  /** The last release that got through since the last press did. */
  function LastRelease(timeout: Uint32, taps: seq<Tap>, n: nat): (r: int)
    requires n <= |taps|
    ensures -1 <= r < n
  {
    if n == 0 then -1
    else if !Kept(timeout, taps, n - 1) then LastRelease(timeout, taps, n - 1)
    else if taps[n - 1].IsPress() then -1 else n - 1
  }

  function TimeOf(taps: seq<Tap>, k: int): nat
    requires k < |taps|
  {
    if k < 0 then 0 else taps[k].at
  }

  function LastKey(timeout: Uint32, taps: seq<Tap>, n: nat): int
    requires n <= |taps|
  {
    if LastKept(timeout, taps, n) < 0 then UNKNOWN_KEY else taps[LastKept(timeout, taps, n)].key
  }

  /** The state is what the taps that got through say. */
  lemma {:induction false} StateIsHistory(timeout: Uint32, taps: seq<Tap>, n: nat)
    requires n <= |taps|
    ensures State(timeout, FRESH, taps[..n]) ==
            Filter(LastKey(timeout, taps, n), TimeOf(taps, LastPress(timeout, taps, n)),
                   TimeOf(taps, LastRelease(timeout, taps, n)))
  {
    if n > 0 {
      StateSnoc(timeout, FRESH, taps, n - 1);
      StateIsHistory(timeout, taps, n - 1);
    }
  }

  /** The last tap that got through is of the same key, and the one it is compared with is too recent. */
  predicate TooSoon(timeout: Uint32, taps: seq<Tap>, n: nat)
    requires n < |taps|
  {
    && timeout != 0 && LastKey(timeout, taps, n) == taps[n].key
    && if taps[n].IsPress() then taps[n].at - TimeOf(taps, LastPress(timeout, taps, n)) < timeout
       else TimeOf(taps, LastRelease(timeout, taps, n)) != 0
            && taps[n].at - TimeOf(taps, LastRelease(timeout, taps, n)) < timeout
  }

  lemma DroppedExactly(timeout: Uint32, taps: seq<Tap>, n: nat)
    requires n < |taps|
    ensures !Kept(timeout, taps, n) <==> TooSoon(timeout, taps, n)
  {
    StateIsHistory(timeout, taps, n);
  }

  /** After a press that got through, as long as its key sends no duration: what the filter compares with. */
  lemma {:induction false} SincePress(timeout: Uint32, taps: seq<Tap>, i: nat, j: nat)
    requires i < j <= |taps| && taps[i].IsPress() && Kept(timeout, taps, i)
    requires forall k :: i < k < j ==> taps[k].key == taps[i].key ==> taps[k].IsPress()
    ensures LastPress(timeout, taps, j) >= i
    ensures LastKey(timeout, taps, j) == taps[i].key ==> TimeOf(taps, LastRelease(timeout, taps, j)) == 0
    ensures (forall k :: i < k < j ==> taps[k].key == taps[i].key) ==> LastKey(timeout, taps, j) == taps[i].key
    decreases j
  {
    if j > i + 1 {
      SincePress(timeout, taps, i, j - 1);
    }
  }

  /**
   After a press that got through, the first release of its key gets through, whatever other keys do
   in between, unless it has no duration: the filter takes such a release for another press, and
   drops it while it is too soon after the last press.
   */
  lemma FirstReleaseGetsThrough(timeout: Uint32, taps: seq<Tap>, i: nat, j: nat)
    requires i < j < |taps| && taps[i].IsPress() && Kept(timeout, taps, i)
    requires taps[j].key == taps[i].key
    requires forall k :: i < k < j ==> taps[k].key == taps[i].key ==> taps[k].IsPress()
    ensures LastPress(timeout, taps, j) >= i
    ensures Kept(timeout, taps, j) <==>
            !(taps[j].IsPress() && timeout != 0 && LastKey(timeout, taps, j) == taps[j].key
              && taps[j].at - taps[LastPress(timeout, taps, j)].at < timeout)
  {
    SincePress(timeout, taps, i, j);
    DroppedExactly(timeout, taps, j);
  }

  lemma {:induction false} PressIsRemembered(timeout: Uint32, taps: seq<Tap>, i: nat, j: nat)
    requires i < j <= |taps| && taps[i].IsPress() && Kept(timeout, taps, i)
    requires forall a, b :: 0 <= a <= b < |taps| ==> taps[a].at <= taps[b].at
    requires forall k :: i < k < j && Kept(timeout, taps, k) ==> taps[k].key == taps[i].key
    ensures var f := State(timeout, FRESH, taps[..j]); f.key == taps[i].key && f.press >= taps[i].at
    decreases j
  {
    StateSnoc(timeout, FRESH, taps, j - 1);
    if j > i + 1 {
      PressIsRemembered(timeout, taps, i, j - 1);
    }
  }

  /** Two presses of a key that got through, with no other key through in between, are a timeout apart. */
  lemma PressesAreApart(timeout: Uint32, taps: seq<Tap>, i: nat, j: nat)
    requires i < j < |taps| && taps[i].IsPress() && taps[j].IsPress() && taps[i].key == taps[j].key
    requires Kept(timeout, taps, i) && Kept(timeout, taps, j)
    requires forall a, b :: 0 <= a <= b < |taps| ==> taps[a].at <= taps[b].at
    requires forall k :: i < k < j && Kept(timeout, taps, k) ==> taps[k].key == taps[i].key
    ensures taps[j].at - taps[i].at >= timeout
  {
    PressIsRemembered(timeout, taps, i, j);
  }

  /** A press of the same key got through less than the timeout ago, and no press of another since. */
  predicate Doubled(timeout: Uint32, taps: seq<Tap>, n: nat)
    requires n < |taps|
  {
    var p := LastPress(timeout, taps, n);
    p >= 0 && taps[p].key == taps[n].key && taps[n].at - taps[p].at < timeout
  }

  /**
   A press that is dropped repeats a press of its key exactly when the last press that got through
   is of that key. The filter compares with the time of that press whatever its key is.
   */
  lemma DroppedPress(timeout: Uint32, taps: seq<Tap>, n: nat)
    requires n < |taps| && taps[n].IsPress() && !Kept(timeout, taps, n)
    ensures Doubled(timeout, taps, n) <==>
            LastPress(timeout, taps, n) >= 0 && taps[LastPress(timeout, taps, n)].key == taps[n].key
  {
    DroppedExactly(timeout, taps, n);
  }
}
