/**
 The use count that guards the command handler of a device. Threads open brackets with MarkBusy and
 close them with MarkReady. ReplaceHandler swaps the handler while it holds the lock, in a bracket
 of its own.
 */
module HandlerUse {

  /** An open bracket: whose it is, and the handler it found. A leaked one is never closed. */
  datatype Bracket = Bracket(thread: int, handler: nat, leaked: bool)

  datatype State = State(useCount: nat, handler: nat, vendor: nat, open: seq<Bracket>)

  datatype Move =
    | Busy(thread: int)                  // MarkBusy
    | Ready(index: nat)                  // MarkReady, by the thread of an open bracket
    | Replace(thread: int, newVendor: nat, hasHandler: bool, newHandler: nat)
    | Leak(thread: int)                  // GetHandler without MarkHandlerReady

  predicate Enabled(s: State, m: Move) {
    m.Ready? ==> m.index < |s.open| && !s.open[m.index].leaked
  }

  predicate Swaps(s: State, m: Move) {
    m.Replace? && s.useCount == 0 && m.hasHandler && m.newVendor != s.vendor
  }

  function Apply(s: State, m: Move): State {
    match m
    case Busy(thread) => s.(useCount := s.useCount + 1, open := s.open + [Bracket(thread, s.handler, false)])
    case Leak(thread) => s.(useCount := s.useCount + 1, open := s.open + [Bracket(thread, s.handler, true)])
    case Ready(index) =>
      s.(useCount := if s.useCount > 0 then s.useCount - 1 else 0,
         open := if index < |s.open| then s.open[..index] + s.open[index + 1..] else s.open)
    case Replace(thread, newVendor, hasHandler, newHandler) =>
      if s.useCount > 0 then s
      else
        var s' := if Swaps(s, m) then s.(handler := newHandler, vendor := newVendor) else s;
        s'.(useCount := 1, open := s.open + [Bracket(thread, s'.handler, false)])
  }

  /** The count is that of the open brackets, and all of them still see the handler they found. */
  ghost predicate Counted(s: State) {
    s.useCount == |s.open| && forall i :: 0 <= i < |s.open| ==> s.open[i].handler == s.handler
  }

  class Guard {
    var useCount: nat
    var handler: nat
    var vendor: nat
    ghost var open: seq<Bracket>

    ghost function Abs(): State reads this {
      State(useCount, handler, vendor, open)
    }

    constructor (initialHandler: nat, unknownVendor: nat)
      ensures Abs() == State(0, initialHandler, unknownVendor, []) && Counted(Abs())
    {
      useCount, handler, vendor, open := 0, initialHandler, unknownVendor, [];
    }

    method MarkBusy(ghost thread: int)
      modifies this`useCount, this`open
      ensures Abs() == Apply(old(Abs()), Busy(thread))
    {
      useCount := useCount + 1;
      open := open + [Bracket(thread, handler, false)];
    }

    method MarkReady(ghost index: nat)
      requires index < |open|
      modifies this`useCount, this`open
      ensures Abs() == Apply(old(Abs()), Ready(index))
    {
      if useCount > 0 {
        useCount := useCount - 1;
      }
      open := open[..index] + open[index + 1..];
    }

    /** The part of ReplaceHandler that holds the lock; its caller calls MarkReady when it is true. */
    method BeginReplace(ghost thread: int, newVendor: nat, hasHandler: bool, newHandler: nat) returns (r: bool)
      modifies this
      ensures r == (old(useCount) == 0)
      ensures Abs() == Apply(old(Abs()), Replace(thread, newVendor, hasHandler, newHandler))
    {
      if useCount > 0 {
        return false;
      }
      useCount := useCount + 1;
      if newVendor != vendor && hasHandler {
        handler, vendor := newHandler, newVendor;
      }
      open := open + [Bracket(thread, handler, false)];
      return true;
    }
  }

  ghost predicate IsRun(s: State, moves: seq<Move>)
    decreases |moves|
  {
    moves == [] || (Enabled(s, moves[0]) && IsRun(Apply(s, moves[0]), moves[1..]))
  }

  function Final(s: State, moves: seq<Move>): State
    decreases |moves|
  {
    if moves == [] then s else Final(Apply(s, moves[0]), moves[1..])
  }

  lemma StepCounted(s: State, m: Move)
    requires Counted(s) && Enabled(s, m)
    ensures Counted(Apply(s, m))
    ensures Apply(s, m).handler != s.handler ==>
              Swaps(s, m) && s.open == [] && Apply(s, m).open == [Bracket(m.thread, Apply(s, m).handler, false)]
  {
  }

  /** In every run of any number of threads, nobody sees the handler change in an open bracket. */
  lemma {:induction false} RunCounted(s: State, moves: seq<Move>)
    requires Counted(s) && IsRun(s, moves)
    ensures Counted(Final(s, moves))
    decreases |moves|
  {
    if moves != [] {
      StepCounted(s, moves[0]);
      RunCounted(Apply(s, moves[0]), moves[1..]);
    }
  }

  /** One bracket that is never closed keeps every replacement from happening, for good. */
  lemma {:induction false} LeakBlocksReplacement(s: State, moves: seq<Move>)
    requires Counted(s) && IsRun(s, moves)
    requires exists b :: b in s.open && b.leaked
    ensures Final(s, moves).handler == s.handler && Final(s, moves).useCount > 0
    ensures exists b :: b in Final(s, moves).open && b.leaked
    decreases |moves|
  {
    if moves != [] {
      var s' := Apply(s, moves[0]);
      StepCounted(s, moves[0]);
      var i :| 0 <= i < |s.open| && s.open[i].leaked;
      if moves[0].Ready? {
        var k := moves[0].index;
        assert s'.open[if i < k then i else i - 1] == s.open[i];
      } else {
        assert s'.open[i] == s.open[i];
      }
      LeakBlocksReplacement(s', moves[1..]);
    }
  }

  /** One leak on a new device is enough. */
  lemma LeakFromTheStart(handler: nat, vendor: nat, thread: int, moves: seq<Move>)
    requires IsRun(Apply(State(0, handler, vendor, []), Leak(thread)), moves)
    ensures Final(State(0, handler, vendor, []), [Leak(thread)] + moves).handler == handler
  {
    var s := Apply(State(0, handler, vendor, []), Leak(thread));
    assert s.open[0].leaked;
    LeakBlocksReplacement(s, moves);
    assert ([Leak(thread)] + moves)[1..] == moves;
  }

  /**
   A replacement goes ahead exactly when no bracket is open, there is a handler for the vendor, and the
   vendor is another one; handler and vendor change together. It opens a bracket, swap or not, unless one
   is open already: then it does nothing.
   */
  lemma ReplaceGoesAhead(s: State, thread: int, newVendor: nat, hasHandler: bool, newHandler: nat)
    requires Counted(s)
    ensures var s' := Apply(s, Replace(thread, newVendor, hasHandler, newHandler));
            if s.open != [] then s' == s
            else if hasHandler && newVendor != s.vendor then
              s' == State(1, newHandler, newVendor, [Bracket(thread, newHandler, false)])
            else s' == State(1, s.handler, s.vendor, [Bracket(thread, s.handler, false)])
  {
  }

  /** What MarkBusy and MarkReady do to the count: up by one, and down by one but never below zero. */
  lemma CountMoves(s: State, thread: int, index: nat)
    ensures Apply(s, Busy(thread)).useCount == s.useCount + 1 && Apply(s, Leak(thread)).useCount == s.useCount + 1
    ensures s.useCount > 0 ==> Apply(s, Ready(index)).useCount == s.useCount - 1
    ensures s.useCount == 0 ==> Apply(s, Ready(index)).useCount == 0
  {
  }
}
