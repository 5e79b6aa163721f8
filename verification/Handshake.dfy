/**
 The handshake over one callback whose result is waited for: the waiting side may give up, and the
 two sides agree on which of them frees the call. Every step holds the lock of the call, and the
 waiting side reads m_keepResult in the step that ends its wait.
 */
module Handshake {

  /** Where a side is: before its step on the call, about to free it or not, or done. */
  datatype Side = Busy | Leaving(frees: bool) | Done(freed: bool)

  datatype State = State(
    keepResult: bool, result: int, succeeded: bool, freed: bool,
    waiter: Side, returned: int, caller: Side)

  datatype Move = WaitEnds | WaiterLeaves | Reports | CallerLeaves

  const START: State := State(true, 0, false, false, Busy, 0, Busy)

  /** Whether a move uses the memory of the call. */
  predicate Touches(s: State, m: Move) {
    match m
    case WaitEnds | Reports => true
    case WaiterLeaves => s.waiter == Leaving(true)
    case CallerLeaves => s.caller == Leaving(true)
  }

  predicate Enabled(s: State, m: Move) {
    match m
    case WaitEnds => s.waiter.Busy?
    case WaiterLeaves => s.waiter.Leaving?
    case Reports => s.caller.Busy?
    case CallerLeaves => s.caller.Leaving?
  }

  /** One move. The callback is run by the caller before it reports value. */
  function Apply(s: State, m: Move, value: int): State
    requires Enabled(s, m)
  {
    match m
    case WaitEnds =>
      var keep := s.keepResult && s.succeeded;
      s.(keepResult := keep, returned := if s.succeeded then s.result else 0, waiter := Leaving(keep))
    case WaiterLeaves => s.(waiter := Done(s.waiter.frees), freed := s.freed || s.waiter.frees)
    case Reports => s.(result := value, succeeded := true, caller := Leaving(!s.keepResult))
    case CallerLeaves => s.(caller := Done(s.caller.frees), freed := s.freed || s.caller.frees)
  }

  class CallbackWrap {
    var keepResult: bool
    var result: int
    var succeeded: bool

    /** The fields of the call are those of s. */
    ghost predicate Shows(s: State) reads this {
      keepResult == s.keepResult && result == s.result && succeeded == s.succeeded
    }

    constructor ()
      ensures Shows(START)
    {
      keepResult, result, succeeded := true, 0, false;
    }

    /** Result(), once its wait is over: the wait timed out unless a result is there. */
    method Result(ghost s: State) returns (r: int, keep: bool)
      requires Shows(s) && Enabled(s, WaitEnds)
      modifies this`keepResult
      ensures var s' := Apply(s, WaitEnds, result);
              Shows(s') && s'.returned == r && s'.waiter == Leaving(keep)
    {
      if succeeded {
        r := result;
      } else {
        keepResult := false;
        r := 0;
      }
      keep := keepResult;
    }

    /** The caller frees the call when keep is false. */
    method Report(value: int, ghost s: State) returns (keep: bool)
      requires Shows(s) && Enabled(s, Reports)
      modifies this`result, this`succeeded
      ensures var s' := Apply(s, Reports, value);
              Shows(s') && s'.caller == Leaving(!keep)
    {
      result, succeeded := value, true;
      keep := keepResult;
    }
  }

  /** A run: only enabled moves, in any interleaving. */
  ghost predicate IsRun(s: State, moves: seq<Move>, value: int)
    decreases |moves|
  {
    moves == [] || (Enabled(s, moves[0]) && IsRun(Apply(s, moves[0], value), moves[1..], value))
  }

  function Final(s: State, moves: seq<Move>, value: int): State
    requires IsRun(s, moves, value)
    decreases |moves|
  {
    if moves == [] then s else Final(Apply(s, moves[0], value), moves[1..], value)
  }

  predicate Frees(side: Side) {
    side == Leaving(true) || side == Done(true)
  }

  ghost predicate Agreed(s: State, value: int) {
    && (s.succeeded <==> !s.caller.Busy?) && (s.succeeded ==> s.result == value)
    && (s.waiter.Busy? ==> s.keepResult && !Frees(s.caller))
    && (s.caller.Busy? ==> !Frees(s.waiter) && (s.keepResult <==> s.waiter.Busy?))
    && (!s.waiter.Busy? && !s.caller.Busy? ==>
          && (Frees(s.waiter) <==> !Frees(s.caller))
          && s.returned == if Frees(s.waiter) then value else 0)
    && (!s.waiter.Busy? && s.caller.Busy? ==> s.returned == 0)
    && (s.freed <==> s.waiter == Done(true) || s.caller == Done(true))
  }

  lemma {:induction false} RunAgrees(s: State, moves: seq<Move>, value: int)
    requires Agreed(s, value) && IsRun(s, moves, value)
    ensures Agreed(Final(s, moves, value), value)
    decreases |moves|
  {
    if moves != [] {
      RunAgrees(Apply(s, moves[0], value), moves[1..], value);
    }
  }

  /** Whether the report comes before the end of the wait. */
  predicate ReportFirst(moves: seq<Move>)
    decreases |moves|
  {
    moves != [] && (moves[0] == Reports || (moves[0] != WaitEnds && ReportFirst(moves[1..])))
  }

  /** After the first of the two decisive moves it is settled who frees. */
  lemma {:induction false} Settled(s: State, moves: seq<Move>, value: int)
    requires IsRun(s, moves, value) && Agreed(s, value) && !(s.waiter.Busy? && s.caller.Busy?)
    requires Final(s, moves, value).waiter.Done? && Final(s, moves, value).caller.Done?
    ensures Final(s, moves, value).waiter.freed <==> (if s.waiter.Busy? then true else Frees(s.waiter))
    decreases |moves|
  {
    if moves != [] {
      Settled(Apply(s, moves[0], value), moves[1..], value);
    }
  }

  lemma {:induction false} FirstDecides(s: State, moves: seq<Move>, value: int)
    requires IsRun(s, moves, value) && Agreed(s, value) && s.waiter.Busy? && s.caller.Busy?
    requires Final(s, moves, value).waiter.Done? && Final(s, moves, value).caller.Done?
    ensures Final(s, moves, value).waiter.freed <==> ReportFirst(moves)
    decreases |moves|
  {
    var s' := Apply(s, moves[0], value);
    Settled(s', moves[1..], value);
  }

  /** When both sides are done, exactly one freed the call: the waiter if the report came first. */
  lemma ExactlyOneFrees(moves: seq<Move>, value: int)
    requires IsRun(START, moves, value)
    requires Final(START, moves, value).waiter.Done? && Final(START, moves, value).caller.Done?
    ensures var s := Final(START, moves, value);
            && s.freed && s.waiter.freed != s.caller.freed
            && s.returned == if s.waiter.freed then value else 0
    ensures Final(START, moves, value).waiter.freed <==> ReportFirst(moves)
  {
    RunAgrees(START, moves, value);
    FirstDecides(START, moves, value);
  }

  predicate ByWaiter(m: Move) {
    m == WaitEnds || m == WaiterLeaves
  }

  lemma {:induction false} WaiterAlone(s: State, moves: seq<Move>, value: int)
    requires IsRun(s, moves, value) && s.caller.Busy? && forall i :: 0 <= i < |moves| ==> ByWaiter(moves[i])
    ensures Final(s, moves, value).caller.Busy?
    decreases |moves|
  {
    if moves != [] {
      assert ByWaiter(moves[0]);
      WaiterAlone(Apply(s, moves[0], value), moves[1..], value);
    }
  }

  /**
   A call that the callback thread never gets, because its queue was full, is never freed: the waiter
   gives up and leaves that to the thread.
   */
  lemma RefusedIsNeverFreed(moves: seq<Move>, value: int)
    requires IsRun(START, moves, value) && forall i :: 0 <= i < |moves| ==> ByWaiter(moves[i])
    ensures !Final(START, moves, value).freed
  {
    RunAgrees(START, moves, value);
    WaiterAlone(START, moves, value);
  }

  /** No move of any run uses the call after it was freed. */
  lemma NoUseAfterFree(moves: seq<Move>, value: int, m: Move)
    requires IsRun(START, moves, value)
    requires Enabled(Final(START, moves, value), m) && Touches(Final(START, moves, value), m)
    ensures !Final(START, moves, value).freed
  {
    RunAgrees(START, moves, value);
  }
}
