/**
 The input queue of the processor: two bounded queues, of which that of the TV goes first, and a
 consumer that sleeps until there is data. Every step holds the lock of the queue.
 */
module InputQueue {
  import opened CecTypes

  const MAX_SIZE := 100

  /** A command, of which only the initiator matters here. Zero is the TV. */
  datatype Command = Command(initiator: int, id: int) {
    predicate FromTv() {
      initiator == 0
    }
  }

  /** The queues, and whether the consumer sleeps inside Pop. */
  datatype State = State(tv: seq<Command>, others: seq<Command>, hasData: bool, waiting: bool)

  const START := State([], [], false, false)

  datatype Move =
    | Pushes(c: Command)
    | Broadcasts
    | EntersPop       // the consumer calls Pop: it takes a command at once, or goes to sleep
    | Wakes           // the sleeping consumer sees m_bHasData
    | TimesOut        // the sleeping consumer gives up

  predicate Accepts(s: State, c: Command) {
    if c.FromTv() then |s.tv| != MAX_SIZE else |s.others| != MAX_SIZE
  }

  /** A sleeper whose condition holds does not time out: the wait returns the condition. */
  predicate Enabled(s: State, m: Move) {
    match m
    case EntersPop => !s.waiting
    case Wakes => s.waiting && s.hasData
    case TimesOut => s.waiting && !s.hasData
    case _ => true
  }

  function Taken(s: State): (State, Option<Command>) {
    var (tv, others, c) :=
      if s.tv != [] then (s.tv[1..], s.others, Some(s.tv[0]))
      else if s.others != [] then (s.tv, s.others[1..], Some(s.others[0]))
      else (s.tv, s.others, None);
    (State(tv, others, tv != [] || others != [], false), c)
  }

  /** One move, and the command it pops. */
  function Apply(s: State, m: Move): (State, Option<Command>) {
    match m
    case Pushes(c) =>
      if !Accepts(s, c) then (s, None)
      else if c.FromTv() then (s.(tv := s.tv + [c], hasData := true), None)
      else (s.(others := s.others + [c], hasData := true), None)
    case Broadcasts => (s.(hasData := true), None)
    case EntersPop => if s.tv != [] || s.others != [] || s.hasData then Taken(s) else (s.(waiting := true), None)
    case Wakes => Taken(s)
    case TimesOut => (s.(waiting := false), None)
  }

  class InputBuffer {
    var tv: seq<Command>
    var others: seq<Command>
    var hasData: bool

    ghost predicate Valid() reads this {
      |tv| <= MAX_SIZE && |others| <= MAX_SIZE && (tv != [] || others != [] ==> hasData)
    }

    ghost function Abs(waiting: bool): State reads this {
      State(tv, others, hasData, waiting)
    }

    constructor ()
      ensures Valid() && Abs(false) == START
    {
      tv, others, hasData := [], [], false;
    }

    method Broadcast(ghost waiting: bool)
      requires Valid()
      modifies this`hasData
      ensures Valid() && Abs(waiting) == Apply(old(Abs(waiting)), Broadcasts).0
    {
      hasData := true;
    }

    method Push(c: Command, ghost waiting: bool) returns (r: bool)
      requires Valid()
      modifies this
      ensures Valid() && Abs(waiting) == Apply(old(Abs(waiting)), Pushes(c)).0
      ensures r == Accepts(old(Abs(waiting)), c)
    {
      r := false;
      if c.FromTv() {
        if |tv| != MAX_SIZE {
          tv, r := tv + [c], true;
        }
      } else {
        if |others| != MAX_SIZE {
          others, r := others + [c], true;
        }
      }
      hasData := hasData || r;
    }

    /** Pop, from the point where it holds the lock for good: nothing queued, and no data seen, is a timeout. */
    method Pop() returns (r: Option<Command>)
      requires Valid()
      modifies this
      ensures Valid()
      ensures (Abs(false), r) == if old(hasData) then Taken(old(Abs(false))) else (old(Abs(false)), None)
    {
      r := None;
      if tv == [] && others == [] && !hasData {
        return;
      }
      if tv != [] {
        r, tv := Some(tv[0]), tv[1..];
      } else if others != [] {
        r, others := Some(others[0]), others[1..];
      }
      hasData := tv != [] || others != [];
    }
  }

  ghost predicate IsRun(s: State, moves: seq<Move>)
    decreases |moves|
  {
    moves == [] || (Enabled(s, moves[0]) && IsRun(Apply(s, moves[0]).0, moves[1..]))
  }

  function Final(s: State, moves: seq<Move>): State
    decreases |moves|
  {
    if moves == [] then s else Final(Apply(s, moves[0]).0, moves[1..])
  }

  function Queued(s: State, fromTv: bool): seq<Command> {
    if fromTv then s.tv else s.others
  }

  ghost predicate Sorted(s: State) {
    && (forall c :: c in s.tv ==> c.FromTv()) && (forall c :: c in s.others ==> !c.FromTv())
    && |s.tv| <= MAX_SIZE && |s.others| <= MAX_SIZE
    && (s.tv != [] || s.others != [] ==> s.hasData)
  }

  lemma StepKeepsSorted(s: State, m: Move)
    requires Sorted(s) && Enabled(s, m)
    ensures Sorted(Apply(s, m).0)
  {
  }

  /**
   A command is accepted exactly while fewer than 100 of its kind wait. It goes behind those, and data is
   announced. A command that is refused changes nothing.
   */
  lemma PushAppends(s: State, c: Command)
    requires Sorted(s)
    ensures var s' := Apply(s, Pushes(c)).0;
            if c.initiator == 0 then
              && (Accepts(s, c) <==> |s.tv| < 100)
              && s' == if |s.tv| < 100 then State(s.tv + [c], s.others, true, s.waiting) else s
            else
              && (Accepts(s, c) <==> |s.others| < 100)
              && s' == if |s.others| < 100 then State(s.tv, s.others + [c], true, s.waiting) else s
  {
  }

  /** Pop takes the oldest command of the TV, else the oldest of all. Data stays announced while some is left. */
  lemma PopTakes(s: State)
    requires Sorted(s) && !s.waiting
    ensures var (s', c) := Apply(s, EntersPop);
            if s.tv != [] then
              && c == Some(s.tv[0])
              && s' == State(s.tv[1..], s.others, |s.tv| > 1 || |s.others| > 0, false)
            else if s.others != [] then
              && c == Some(s.others[0])
              && s' == State([], s.others[1..], |s.others| > 1, false)
            else c == None && s' == State([], [], false, !s.hasData)
    ensures s.hasData ==> Apply(s.(waiting := true), Wakes) == Apply(s, EntersPop)
  {
  }

  lemma Chain(q: seq<Command>, a: seq<Command>, p: seq<Command>, q': seq<Command>,
              later: seq<Command>, popped: seq<Command>, end: seq<Command>)
    requires q + a == p + q' && q' + later == popped + end
    ensures q + (a + later) == (p + popped) + end
  {
    assert q + (a + later) == (q + a) + later;
    assert (p + q') + later == p + (q' + later);
    assert p + (popped + end) == (p + popped) + end;
  }

  function AcceptedNow(s: State, m: Move, fromTv: bool): seq<Command> {
    if m.Pushes? && Accepts(s, m.c) && m.c.FromTv() == fromTv then [m.c] else []
  }

  function PoppedNow(s: State, m: Move, fromTv: bool): seq<Command> {
    var c := Apply(s, m).1;
    if c.Some? && c.value.FromTv() == fromTv then [c.value] else []
  }

  /** The commands of one kind that a run accepts, and those that it pops. */
  function Accepted(s: State, moves: seq<Move>, fromTv: bool): seq<Command>
    decreases |moves|
  {
    if moves == [] then []
    else AcceptedNow(s, moves[0], fromTv) + Accepted(Apply(s, moves[0]).0, moves[1..], fromTv)
  }

  function Popped(s: State, moves: seq<Move>, fromTv: bool): seq<Command>
    decreases |moves|
  {
    if moves == [] then []
    else PoppedNow(s, moves[0], fromTv) + Popped(Apply(s, moves[0]).0, moves[1..], fromTv)
  }

  /** One step conserves the commands of each kind, and their order. */
  lemma StepConserves(s: State, m: Move, fromTv: bool)
    requires Sorted(s)
    ensures Queued(s, fromTv) + AcceptedNow(s, m, fromTv) == PoppedNow(s, m, fromTv) + Queued(Apply(s, m).0, fromTv)
  {
  }

  lemma {:induction false} RunKeepsSorted(s: State, moves: seq<Move>)
    requires Sorted(s) && IsRun(s, moves)
    ensures Sorted(Final(s, moves))
    decreases |moves|
  {
    if moves != [] {
      StepKeepsSorted(s, moves[0]);
      RunKeepsSorted(Apply(s, moves[0]).0, moves[1..]);
    }
  }

  /**
   Conservation over whole runs. What was queued and what is accepted, in this order, is what is
   popped and what is still queued: for TV commands and for the others, each by itself.
   */
  lemma {:induction false} RunConserves(s: State, moves: seq<Move>, fromTv: bool)
    requires Sorted(s) && IsRun(s, moves)
    ensures Queued(s, fromTv) + Accepted(s, moves, fromTv) == Popped(s, moves, fromTv) + Queued(Final(s, moves), fromTv)
    decreases |moves|
  {
    if moves != [] {
      var m, s' := moves[0], Apply(s, moves[0]).0;
      StepKeepsSorted(s, m);
      StepConserves(s, m, fromTv);
      RunConserves(s', moves[1..], fromTv);
      Chain(Queued(s, fromTv), AcceptedNow(s, m, fromTv), PoppedNow(s, m, fromTv), Queued(s', fromTv),
            Accepted(s', moves[1..], fromTv), Popped(s', moves[1..], fromTv), Queued(Final(s, moves), fromTv));
    }
  }

  /** No command of another device is popped while one of the TV waits. */
  lemma TvGoesFirst(moves: seq<Move>, m: Move)
    requires IsRun(START, moves) && Enabled(Final(START, moves), m)
    ensures var s := Final(START, moves);
            var c := Apply(s, m).1;
            c.Some? && !c.value.FromTv() ==> s.tv == []
  {
    RunKeepsSorted(START, moves);
  }

  /**
   No wake-up is lost. In every reachable state in which the consumer sleeps although a command is
   queued, it can wake, it cannot time out, and waking gets it a command.
   */
  lemma NoLostWakeUp(moves: seq<Move>)
    requires IsRun(START, moves)
    requires var s := Final(START, moves); s.waiting && (s.tv != [] || s.others != [])
    ensures var s := Final(START, moves);
            Enabled(s, Wakes) && !Enabled(s, TimesOut) && Apply(s, Wakes).1.Some?
  {
    RunKeepsSorted(START, moves);
  }
}
