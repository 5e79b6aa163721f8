/**
 The queue between a client and its callback thread: a bounded FIFO that key presses share with log
 messages and all other callbacks. What comes while it is full is refused, and nobody looks at that.
 */
module CallbackQueue {

  const MAX_SIZE := 100

  /** An entry: the key press with this number, or a callback of another kind. */
  datatype Entry = Key(index: nat) | Other

  /** A key press that the callback thread took from the queue, and when. */
  datatype Heard = Heard(index: nat, at: nat)

  datatype Move =
    | OffersKey          // QueueAddKey
    | OffersOther        // any other Queue function
    | Takes(at: nat)     // the callback thread pops an entry, if there is one

  datatype State = State(buffer: seq<Entry>, offered: nat, heard: seq<Heard>)

  const START := State([], 0, [])

  function Pushed(buffer: seq<Entry>, e: Entry): seq<Entry> {
    if |buffer| == MAX_SIZE then buffer else buffer + [e]
  }

  function Apply(s: State, m: Move): State {
    match m
    case OffersKey => s.(buffer := Pushed(s.buffer, Key(s.offered)), offered := s.offered + 1)
    case OffersOther => s.(buffer := Pushed(s.buffer, Other))
    case Takes(at) =>
      if s.buffer == [] then s
      else State(s.buffer[1..], s.offered,
                 s.heard + if s.buffer[0].Key? then [Heard(s.buffer[0].index, at)] else [])
  }

  /** The state after a list of moves. */
  function Run(moves: seq<Move>): State {
    if moves == [] then START else Apply(Run(moves[..|moves| - 1]), moves[|moves| - 1])
  }

  /** SyncedBuffer, without its lock and its wait. */
  class SyncedBuffer {
    var buffer: seq<Entry>
    var hasData: bool

    ghost predicate Valid() reads this {
      |buffer| <= MAX_SIZE && (hasData <==> buffer != [])
    }

    constructor ()
      ensures Valid() && buffer == START.buffer
    {
      buffer, hasData := [], false;
    }

    method Push(e: Entry) returns (r: bool)
      requires Valid()
      modifies this
      ensures Valid() && buffer == Pushed(old(buffer), e) && r == (|old(buffer)| < MAX_SIZE)
    {
      if |buffer| == MAX_SIZE {
        return false;
      }
      buffer, hasData := buffer + [e], true;
      return true;
    }

    method Pop(ghost s: State, at: nat) returns (heard: seq<Heard>)
      requires Valid() && s.buffer == buffer
      modifies this
      ensures Valid() && buffer == Apply(s, Takes(at)).buffer && Apply(s, Takes(at)).heard == s.heard + heard
    {
      heard := [];
      if buffer == [] {
        return;
      }
      if buffer[0].Key? {
        heard := [Heard(buffer[0].index, at)];
      }
      buffer := buffer[1..];
      hasData := buffer != [];
    }
  }

  // ---------- what becomes of a key press ----------

  predicate RefusedAt(moves: seq<Move>, i: nat, k: nat)
    requires k < |moves|
  {
    moves[k].OffersKey? && Run(moves[..k]).offered == i && |Run(moves[..k]).buffer| == 100
  }

  /** Key press i was offered while the queue was full. */
  ghost predicate Refused(moves: seq<Move>, i: nat) {
    exists k :: 0 <= k < |moves| && RefusedAt(moves, i, k)
  }

  /** Key press i is still in the queue. */
  predicate Waits(moves: seq<Move>, i: nat) {
    Key(i) in Run(moves).buffer
  }

  predicate IsHeard(heard: seq<Heard>, i: nat) {
    exists j :: 0 <= j < |heard| && heard[j].index == i
  }

  ghost predicate Increasing(heard: seq<Heard>) {
    forall j, k :: 0 <= j < k < |heard| ==> heard[j].index < heard[k].index
  }

  /** The queue holds its key presses in order, and after all that were heard. */
  ghost predicate InOrder(s: State) {
    && |s.buffer| <= MAX_SIZE && Increasing(s.heard)
    && (forall j, k :: 0 <= j < k < |s.buffer| && s.buffer[j].Key? && s.buffer[k].Key? ==>
          s.buffer[j].index < s.buffer[k].index)
    && (forall k :: 0 <= k < |s.buffer| && s.buffer[k].Key? ==> s.buffer[k].index < s.offered)
    && (forall j :: 0 <= j < |s.heard| ==> s.heard[j].index < s.offered)
    && (forall j, k :: 0 <= j < |s.heard| && 0 <= k < |s.buffer| && s.buffer[k].Key? ==>
          s.heard[j].index < s.buffer[k].index)
  }

  lemma StepKeepsOrder(s: State, m: Move)
    requires InOrder(s)
    ensures InOrder(Apply(s, m))
  {
  }

  /** What is taken is the oldest entry, heard at that time if it is a key press. */
  lemma OldestIsTaken(s: State, e: Entry, rest: seq<Entry>, at: nat)
    requires s.buffer == [e] + rest
    ensures var s' := Apply(s, Takes(at));
            && s'.buffer == rest
            && s'.heard == s.heard + match e case Key(i) => [Heard(i, at)] case Other => []
  {
  }

  lemma {:induction false} RunKeepsOrder(moves: seq<Move>)
    ensures InOrder(Run(moves))
  {
    if moves != [] {
      RunKeepsOrder(moves[..|moves| - 1]);
      StepKeepsOrder(Run(moves[..|moves| - 1]), moves[|moves| - 1]);
    }
  }

  lemma RefusedStep(moves: seq<Move>, i: nat)
    requires moves != []
    ensures var n := |moves| - 1;
            Refused(moves, i) <==> Refused(moves[..n], i) || RefusedAt(moves, i, n)
  {
    var n := |moves| - 1;
    forall k | 0 <= k < n
      ensures RefusedAt(moves, i, k) <==> RefusedAt(moves[..n], i, k)
    {
      assert moves[..n][..k] == moves[..k];
    }
  }

  /** Where a key press can be, one step at a time. */
  lemma StepMovesOne(s: State, m: Move, i: nat)
    requires InOrder(s) && i < Apply(s, m).offered
    ensures var s' := Apply(s, m);
            IsHeard(s'.heard, i) || Key(i) in s'.buffer <==>
            IsHeard(s.heard, i) || Key(i) in s.buffer || (m.OffersKey? && i == s.offered && |s.buffer| < MAX_SIZE)
  {
    var s' := Apply(s, m);
    if m.Takes? && s.buffer != [] {
      assert s.buffer == [s.buffer[0]] + s'.buffer;
      if s.buffer[0] == Key(i) {
        assert s'.heard[|s.heard|].index == i;
      }
      forall j | 0 <= j < |s.heard|
        ensures s'.heard[j] == s.heard[j]
      {
      }
    }
  }

  lemma {:induction false} OfferedGrows(moves: seq<Move>, k: nat)
    requires k <= |moves|
    ensures Run(moves[..k]).offered <= Run(moves).offered
    decreases |moves|
  {
    if k == |moves| {
      assert moves[..k] == moves;
    } else {
      OfferedGrows(moves[..|moves| - 1], k);
      assert moves[..|moves| - 1][..k] == moves[..k];
    }
  }

  lemma NotYetRefused(moves: seq<Move>, i: nat)
    requires Run(moves).offered <= i
    ensures !Refused(moves, i)
  {
    forall k | 0 <= k < |moves|
      ensures !RefusedAt(moves, i, k)
    {
      if moves[k].OffersKey? {
        OfferedGrows(moves, k + 1);
        assert moves[..k + 1][..k] == moves[..k];
      }
    }
  }

  /** Every key press that was offered was heard, or waits, or was refused because the queue was full. */
  lemma {:induction false} HeardExactly(moves: seq<Move>, i: nat)
    requires i < Run(moves).offered
    ensures IsHeard(Run(moves).heard, i) <==> !Refused(moves, i) && !Waits(moves, i)
    ensures Refused(moves, i) ==> !Waits(moves, i)
    decreases |moves|
  {
    var n := |moves| - 1;
    var s, m := Run(moves[..n]), moves[n];
    RunKeepsOrder(moves[..n]);
    RunKeepsOrder(moves);
    RefusedStep(moves, i);
    StepMovesOne(s, m, i);
    if i < s.offered {
      HeardExactly(moves[..n], i);
    } else {
      NotYetRefused(moves[..n], i);
    }
  }
}
