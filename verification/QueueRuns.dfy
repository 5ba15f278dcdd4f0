/**
 Every interleaving of threads that enqueue and dequeue, with the locking of the source: the length is
 tested outside the lock, and the list and the length are changed one after the other inside it.
 */
module QueueRuns {
  import opened MsgQueue

  /** Messages whose peers are numbers. */
  type Msg = Message<nat>

  /** Where a thread stands. Enqueuers: idle, locked, linked, counted. Dequeuers also pass the length test first. */
  datatype Thread =
    | Enqueuer(at: EnqueueStep)
    | Dequeuer(step: DequeueStep)

  datatype EnqueueStep = Idle | Locked(msg: Msg) | Linked | Counted

  datatype DequeueStep = Waiting | Tested | Entered | Unlinked | Discounted

  /**
   The shared queue and the threads. The list from head to tail has the two sentinels at its ends. sent
   and received are the histories.
   */
  datatype State = State(
    threads: seq<Thread>,
    owner: int, // the thread that holds the mutex, or -1
    messages: seq<Msg>, // oldest first
    length: nat,
    sent: seq<Msg>,
    received: seq<Msg>,
    sentinelRemoved: bool)

  function Start(threads: seq<Thread>): (r: State)
  {
    State(threads, -1, [], 0, [], [], false)
  }

  predicate AtRest(t: Thread)
  {
    t == Enqueuer(Idle) || t == Dequeuer(Waiting)
  }

  function Move(s: State, t: nat, thread: Thread): (r: State)
    requires t < |s.threads|
  {
    s.(threads := s.threads[t := thread])
  }

  /** One step of thread t; msg is the message if it starts to enqueue. A thread that cannot move stays. */
  function Step(s: State, t: nat, msg: Msg): (r: State)
    requires t < |s.threads|
  {
    match s.threads[t]
    case Enqueuer(Idle) => // pthread_mutex_lock
      if s.owner == -1 then Move(s, t, Enqueuer(Locked(msg))).(owner := t) else s
    case Enqueuer(Locked(m)) => // the four pointer writes behind head
      Move(s, t, Enqueuer(Linked)).(messages := s.messages + [m], sent := s.sent + [m])
    case Enqueuer(Linked) => // ++length
      Move(s, t, Enqueuer(Counted)).(length := Wrap(s.length + 1))
    case Enqueuer(Counted) => // pthread_mutex_unlock
      Move(s, t, Enqueuer(Idle)).(owner := -1)
    case Dequeuer(Waiting) => // while (q->length == 0), without the lock
      if s.length == 0 then s else Move(s, t, Dequeuer(Tested))
    case Dequeuer(Tested) => // pthread_mutex_lock
      if s.owner == -1 then Move(s, t, Dequeuer(Entered)).(owner := t) else s
    case Dequeuer(Entered) => // tail->prev is read and unlinked
      if s.messages == [] then Move(s, t, Dequeuer(Unlinked)).(sentinelRemoved := true)
      else Move(s, t, Dequeuer(Unlinked)).(messages := s.messages[1..], received := s.received + [s.messages[0]])
    case Dequeuer(Unlinked) => // --length
      Move(s, t, Dequeuer(Discounted)).(length := Wrap(s.length - 1))
    case Dequeuer(Discounted) => // pthread_mutex_unlock
      Move(s, t, Dequeuer(Waiting)).(owner := -1)
  }

  /** A turn: which thread moves, and the message it would enqueue. */
  datatype Turn = Turn(thread: nat, msg: Msg)

  /** One turn; that of a thread that does not exist is skipped. */
  function Take(s: State, turn: Turn): (r: State)
  {
    if turn.thread < |s.threads| then Step(s, turn.thread, turn.msg) else s
  }

  /** The state after a schedule. */
  function Run(s: State, schedule: seq<Turn>): (r: State)
  {
    if |schedule| == 0 then s
    else Take(Run(s, schedule[..|schedule| - 1]), schedule[|schedule| - 1])
  }

  // ---------------------------------------------------------- the invariant

  predicate Inside(t: Thread)
  {
    match t
    case Enqueuer(a) => a != Idle
    case Dequeuer(d) => d == Entered || d == Unlinked || d == Discounted
  }

  /** At most one thread dequeues. */
  predicate OneDequeuer(threads: seq<Thread>)
  {
    forall i, j :: 0 <= i < |threads| && 0 <= j < |threads| && threads[i].Dequeuer? && threads[j].Dequeuer? ==> i == j
  }

  /** The mutex excludes: exactly its owner is inside. */
  predicate Exclusive(s: State)
  {
    -1 <= s.owner < |s.threads| && forall i :: 0 <= i < |s.threads| ==> (Inside(s.threads[i]) <==> i == s.owner)
  }

  /** How far the length lags behind the list, because of the thread inside. */
  function Lag(s: State): (r: int)
  {
    if 0 <= s.owner < |s.threads| then
      match s.threads[s.owner]
      case Enqueuer(a) => if a == Linked then 1 else 0
      case Dequeuer(d) => if d == Unlinked then -1 else 0
    else 0
  }

  /** A dequeuer past the test has a message to take, and so has an enqueuer's list right after its link. */
  predicate NeedsMessage(t: Thread)
  {
    t == Dequeuer(Tested) || t == Dequeuer(Entered) || t == Enqueuer(Linked)
  }

  predicate Promised(s: State)
  {
    forall i :: 0 <= i < |s.threads| && NeedsMessage(s.threads[i]) ==> s.messages != []
  }

  predicate Good(s: State)
  {
    && OneDequeuer(s.threads) && Exclusive(s) && Promised(s)
    && s.length == Wrap(|s.messages| - Lag(s))
    && s.sent == s.received + s.messages
    && !s.sentinelRemoved
  }

  lemma WrapMore(n: int, c: int)
    ensures Wrap(Wrap(n) + c) == Wrap(n + c) && Wrap(0) == 0
  {
  }

  lemma StepKeepsRoles(s: State, t: nat, msg: Msg)
    requires t < |s.threads| && OneDequeuer(s.threads)
    ensures OneDequeuer(Step(s, t, msg).threads)
  {
    var r := Step(s, t, msg);
    assert |r.threads| == |s.threads|;
    assert forall i :: 0 <= i < |s.threads| ==> (r.threads[i].Dequeuer? <==> s.threads[i].Dequeuer?);
  }

  lemma OthersEnqueue(threads: seq<Thread>, t: nat)
    requires t < |threads| && OneDequeuer(threads) && threads[t].Dequeuer?
    ensures forall i :: 0 <= i < |threads| && i != t ==> threads[i].Enqueuer?
  {
  }

  lemma EnqueuerKeepsGood(s: State, t: nat, msg: Msg)
    requires t < |s.threads| && Good(s) && s.threads[t].Enqueuer?
    ensures Good(Step(s, t, msg))
  {
    StepKeepsRoles(s, t, msg);
    WrapMore(|s.messages| - Lag(s), 1);
    assert s.threads[t].at == Linked ==> s.owner == t;
  }

  lemma DequeuerKeepsGood(s: State, t: nat, msg: Msg)
    requires t < |s.threads| && Good(s) && s.threads[t].Dequeuer?
    ensures Good(Step(s, t, msg))
  {
    StepKeepsRoles(s, t, msg);
    OthersEnqueue(s.threads, t);
    WrapMore(|s.messages| - Lag(s), -1);
    hide OneDequeuer, Wrap;
  }

  lemma {:induction false} RunKeepsGood(threads: seq<Thread>, schedule: seq<Turn>)
    requires OneDequeuer(threads) && forall i :: 0 <= i < |threads| ==> AtRest(threads[i])
    ensures Good(Run(Start(threads), schedule))
  {
    if |schedule| == 0 {
    } else {
      var turn := schedule[|schedule| - 1];
      var before := Run(Start(threads), schedule[..|schedule| - 1]);
      RunKeepsGood(threads, schedule[..|schedule| - 1]);
      hide Good, Step;
      if turn.thread < |before.threads| {
        if before.threads[turn.thread].Enqueuer? {
          EnqueuerKeepsGood(before, turn.thread, turn.msg);
        } else {
          DequeuerKeepsGood(before, turn.thread, turn.msg);
        }
      }
    }
  }

  // -------------------------------------------------- what the schedule sends

  /** The message this turn starts to enqueue: its thread is an idle enqueuer and the mutex is free. */
  function Begins(s: State, turn: Turn): (r: seq<Msg>)
  {
    if turn.thread < |s.threads| && s.threads[turn.thread] == Enqueuer(Idle) && s.owner == -1 then [turn.msg] else []
  }

  /** The messages the schedule starts to enqueue, in order. */
  function Begun(threads: seq<Thread>, schedule: seq<Turn>): (r: seq<Msg>)
  {
    if |schedule| == 0 then []
    else
      var before := schedule[..|schedule| - 1];
      Begun(threads, before) + Begins(Run(Start(threads), before), schedule[|schedule| - 1])
  }

  /** The message of an enqueuer that holds the mutex and has not linked it yet. */
  function Pending(s: State): (r: seq<Msg>)
  {
    if 0 <= s.owner < |s.threads| then
      match s.threads[s.owner]
      case Enqueuer(Locked(m)) => [m]
      case _ => []
    else []
  }

  lemma StepExcludes(s: State, t: nat, msg: Msg)
    requires t < |s.threads| && Exclusive(s)
    ensures Exclusive(Step(s, t, msg))
  {
    hide Wrap;
  }

  /** A step adds to the messages sent or pending just what it starts to enqueue. */
  lemma StepSends(s: State, t: nat, msg: Msg)
    requires t < |s.threads| && Exclusive(s)
    ensures Exclusive(Step(s, t, msg))
    ensures Step(s, t, msg).sent + Pending(Step(s, t, msg)) == s.sent + Pending(s) + Begins(s, Turn(t, msg))
  {
    StepExcludes(s, t, msg);
    assert Inside(s.threads[t]) <==> t == s.owner;
    hide Exclusive, Wrap;
  }

  /** Every message whose enqueuing began has been sent, but for the one of the thread inside, and nothing else. */
  lemma {:induction false} EveryMessageSent(threads: seq<Thread>, schedule: seq<Turn>)
    requires forall i :: 0 <= i < |threads| ==> AtRest(threads[i])
    ensures var s := Run(Start(threads), schedule);
      Exclusive(s) && Begun(threads, schedule) == s.sent + Pending(s)
  {
    if |schedule| == 0 {
    } else {
      var turn, before := schedule[|schedule| - 1], schedule[..|schedule| - 1];
      var s := Run(Start(threads), before);
      EveryMessageSent(threads, before);
      hide Step, Exclusive, Pending;
      if turn.thread < |s.threads| {
        StepSends(s, turn.thread, turn.msg);
        assert Turn(turn.thread, turn.msg) == turn;
      }
    }
  }

  /** An enqueuer that nobody interrupts: four turns put its message last and count it. */
  lemma EnqueueCompletes(s: State, t: nat, msg: Msg)
    requires t < |s.threads| && s.owner == -1 && s.threads[t] == Enqueuer(Idle)
    ensures var turn := Turn(t, msg);
      Take(Take(Take(Take(s, turn), turn), turn), turn)
      == s.(messages := s.messages + [msg], sent := s.sent + [msg], length := Wrap(s.length + 1))
  {
    var turn := Turn(t, msg);
    var a := Take(s, turn);
    var b := Take(a, turn);
    var c := Take(b, turn);
    assert a.threads[t] == Enqueuer(Locked(msg)) && b.threads[t] == Enqueuer(Linked);
    assert c.threads[t] == Enqueuer(Counted);
    assert Take(c, turn).threads == s.threads;
    hide Wrap;
  }

  /** A dequeuer that nobody interrupts: five turns take the oldest message out and count it. */
  lemma DequeueCompletes(s: State, t: nat, msg: Msg)
    requires t < |s.threads| && s.owner == -1 && s.threads[t] == Dequeuer(Waiting)
    requires s.length != 0 && s.messages != []
    ensures var turn := Turn(t, msg);
      Take(Take(Take(Take(Take(s, turn), turn), turn), turn), turn)
      == s.(messages := s.messages[1..], received := s.received + [s.messages[0]], length := Wrap(s.length - 1))
  {
    var turn := Turn(t, msg);
    var a := Take(s, turn);
    var b := Take(a, turn);
    var c := Take(b, turn);
    var d := Take(c, turn);
    assert a.threads[t] == Dequeuer(Tested) && b.threads[t] == Dequeuer(Entered);
    assert c.threads[t] == Dequeuer(Unlinked) && d.threads[t] == Dequeuer(Discounted);
    assert Take(d, turn).threads == s.threads;
    hide Wrap;
  }

  // -------------------------------------------------------------- theorems

  /**
   For any number of enqueuers and one dequeuer, after every schedule: the messages received, then those still
   queued, then the one about to be linked are the messages whose enqueuing the schedule began, in order; and no
   sentinel was taken for a message. When nobody is inside, length is the number of queued messages modulo 2^32.
   */
  lemma FirstInFirstOut(threads: seq<Thread>, schedule: seq<Turn>)
    requires OneDequeuer(threads) && forall i :: 0 <= i < |threads| ==> AtRest(threads[i])
    ensures var s := Run(Start(threads), schedule);
      && Begun(threads, schedule) == s.received + s.messages + Pending(s)
      && s.sent == s.received + s.messages
      && !s.sentinelRemoved
      && (s.owner == -1 ==> s.length == Wrap(|s.messages|))
  {
    RunKeepsGood(threads, schedule);
    EveryMessageSent(threads, schedule);
    hide Run;
  }

  // -------------------------------------------- exactly when a sentinel is safe

  /** Where the enqueuer c and the dequeuers a and b stand, and what they share. */
  ghost predicate Scene(s: State, c: nat, a: nat, b: nat, at: EnqueueStep, first: DequeueStep, second: DequeueStep,
                        owner: int, messages: seq<Msg>, length: nat)
  {
    && c < |s.threads| && a < |s.threads| && b < |s.threads| && c != a && c != b && a != b
    && s.threads[c] == Enqueuer(at) && s.threads[a] == Dequeuer(first) && s.threads[b] == Dequeuer(second)
    && s.owner == owner && s.messages == messages && s.length == length
  }

  lemma SplitRun(s: State, schedule: seq<Turn>, turn: Turn)
    ensures Run(s, schedule + [turn]) == Take(Run(s, schedule), turn)
  {
    assert (schedule + [turn])[..|schedule|] == schedule;
    hide Take;
  }

  /** The enqueuer's four turns put one message into the queue. */
  lemma EnqueueTurns(s: State, c: nat, a: nat, b: nat, e: Turn)
    requires Scene(s, c, a, b, Idle, Waiting, Waiting, -1, [], 0) && e.thread == c
    ensures Scene(Take(Take(Take(Take(s, e), e), e), e), c, a, b, Idle, Waiting, Waiting, -1, [e.msg], 1)
  {
    assert Scene(Take(s, e), c, a, b, Locked(e.msg), Waiting, Waiting, c, [], 0);
    assert Scene(Take(Take(s, e), e), c, a, b, Linked, Waiting, Waiting, c, [e.msg], 0);
    assert Scene(Take(Take(Take(s, e), e), e), c, a, b, Counted, Waiting, Waiting, c, [e.msg], 1);
  }

  /** Both dequeuers see the length one. */
  lemma TestTurns(s: State, c: nat, a: nat, b: nat, x: Turn, y: Turn, msg: Msg)
    requires Scene(s, c, a, b, Idle, Waiting, Waiting, -1, [msg], 1) && x.thread == a && y.thread == b
    ensures Scene(Take(Take(s, x), y), c, a, b, Idle, Tested, Tested, -1, [msg], 1)
  {
    assert Scene(Take(s, x), c, a, b, Idle, Tested, Waiting, -1, [msg], 1);
  }

  /** The first takes the message and leaves. */
  lemma TakeTurns(s: State, c: nat, a: nat, b: nat, x: Turn, msg: Msg)
    requires Scene(s, c, a, b, Idle, Tested, Tested, -1, [msg], 1) && x.thread == a
    ensures Scene(Take(Take(Take(Take(s, x), x), x), x), c, a, b, Idle, Waiting, Tested, -1, [], 0)
  {
    assert Scene(Take(s, x), c, a, b, Idle, Entered, Tested, a, [msg], 1);
    assert Scene(Take(Take(s, x), x), c, a, b, Idle, Unlinked, Tested, a, [], 1);
    assert Scene(Take(Take(Take(s, x), x), x), c, a, b, Idle, Discounted, Tested, a, [], 0);
  }

  /** The second finds only the sentinels. */
  lemma SentinelTurns(s: State, c: nat, a: nat, b: nat, y: Turn)
    requires Scene(s, c, a, b, Idle, Waiting, Tested, -1, [], 0) && y.thread == b
    ensures Take(Take(s, y), y).sentinelRemoved
  {
    assert Scene(Take(s, y), c, a, b, Idle, Waiting, Entered, b, [], 0);
  }

  lemma RunTwo(s: State, schedule: seq<Turn>, x: Turn, y: Turn)
    ensures Run(s, schedule + [x] + [y]) == Take(Take(Run(s, schedule), x), y)
  {
    SplitRun(s, schedule, x);
    SplitRun(s, schedule + [x], y);
    hide Run, Take;
  }

  lemma RunFour(s: State, schedule: seq<Turn>, x: Turn)
    ensures Run(s, schedule + [x] + [x] + [x] + [x]) == Take(Take(Take(Take(Run(s, schedule), x), x), x), x)
  {
    RunTwo(s, schedule, x, x);
    RunTwo(s, schedule + [x] + [x], x, x);
    hide Run, Take;
  }

  /** The race: c enqueues, a and b both pass the test, a takes the message, b goes on to take one. */
  function RacingTurns(c: nat, a: nat, b: nat): (r: seq<Turn>)
  {
    var m := Message([], 0, 0);
    var e, x, y := Turn(c, m), Turn(a, m), Turn(b, m);
    [] + [e] + [e] + [e] + [e] + [x] + [y] + [x] + [x] + [x] + [x] + [y] + [y]
  }

  /** With an enqueuer and two dequeuers the head sentinel can be removed: the length is tested outside the lock. */
  lemma TwoDequeuersRace(threads: seq<Thread>, c: nat, a: nat, b: nat)
    requires c < |threads| && a < |threads| && b < |threads| && a != b
    requires threads[c] == Enqueuer(Idle) && threads[a] == threads[b] == Dequeuer(Waiting)
    ensures Run(Start(threads), RacingTurns(c, a, b)).sentinelRemoved
  {
    var s, m: Msg := Start(threads), Message([], 0, 0);
    var e, x, y := Turn(c, m), Turn(a, m), Turn(b, m);
    assert Run(s, []) == s && Scene(s, c, a, b, Idle, Waiting, Waiting, -1, [], 0);
    hide Run, Take, Scene, Start;
    EnqueueTurns(s, c, a, b, e);
    RunFour(s, [], e);
    var r1 := [] + [e] + [e] + [e] + [e];
    TestTurns(Run(s, r1), c, a, b, x, y, m);
    RunTwo(s, r1, x, y);
    var r2 := r1 + [x] + [y];
    TakeTurns(Run(s, r2), c, a, b, x, m);
    RunFour(s, r2, x);
    var r3 := r2 + [x] + [x] + [x] + [x];
    SentinelTurns(Run(s, r3), c, a, b, y);
    RunTwo(s, r3, y, y);
  }

  predicate NoEnqueuer(threads: seq<Thread>)
  {
    forall i :: 0 <= i < |threads| ==> threads[i].Dequeuer?
  }

  /** Without enqueuers nobody gets past the length test. */
  lemma {:induction false} NothingEverSent(threads: seq<Thread>, schedule: seq<Turn>)
    requires NoEnqueuer(threads) && forall i :: 0 <= i < |threads| ==> AtRest(threads[i])
    ensures Run(Start(threads), schedule) == Start(threads)
  {
    if |schedule| > 0 {
      NothingEverSent(threads, schedule[..|schedule| - 1]);
    }
  }

  /**
   Over all schedules: no sentinel is ever taken for a message exactly when at most one thread dequeues, or
   none enqueues.
   */
  lemma SentinelSafe(threads: seq<Thread>)
    requires forall i :: 0 <= i < |threads| ==> AtRest(threads[i])
    ensures (forall schedule :: !Run(Start(threads), schedule).sentinelRemoved)
       <==> OneDequeuer(threads) || NoEnqueuer(threads)
  {
    if OneDequeuer(threads) {
      forall schedule
        ensures !Run(Start(threads), schedule).sentinelRemoved
      {
        FirstInFirstOut(threads, schedule);
      }
    } else if NoEnqueuer(threads) {
      forall schedule
        ensures !Run(Start(threads), schedule).sentinelRemoved
      {
        NothingEverSent(threads, schedule);
      }
    } else {
      var a, b :| 0 <= a < |threads| && 0 <= b < |threads| && threads[a].Dequeuer? && threads[b].Dequeuer? && a != b;
      var c :| 0 <= c < |threads| && !threads[c].Dequeuer?;
      TwoDequeuersRace(threads, c, a, b);
    }
  }

  // ------------------------------------------------- the steps on the heap

  /** The linked list and the length field hold the messages and the length of the state. */
  ghost predicate Represents(s: State, q: Queue<nat>)
    reads q, q.chain
  {
    && q.Chained() && |q.chain| >= 2
    && q.Contents() == s.messages && q.length == s.length
  }

  method NodeFor(m: Msg) returns (node: Node<nat>)
    ensures fresh(node) && node.raw == m.raw && node.size == |m.raw| && node.kind == m.kind && node.peer == m.peer
  {
    node := new Node<nat>.Of(m.raw, m.kind, m.peer);
  }

  /** Thread t is about to unlink a message from an empty list. */
  predicate UnlinksSentinel(s: State, t: nat)
    requires t < |s.threads|
  {
    s.threads[t] == Dequeuer(Entered) && s.messages == []
  }

  /**
   The heap changes of one step: the pointer writes of the source, or its update of the length. For an empty
   list the node before tail is head, and the write through its prev, a null pointer, cannot be carried out.
   */
  method Perform(q: Queue<nat>, s: State, t: nat, msg: Msg) returns (taken: seq<Msg>, nullWrite: bool)
    requires t < |s.threads| && Represents(s, q)
    modifies q, q.chain
    ensures nullWrite <==> UnlinksSentinel(s, t)
    ensures nullWrite ==> q.tail.prev == q.head && q.head.prev == null && Represents(s, q)
    ensures !nullWrite ==> Represents(Step(s, t, msg), q) && Step(s, t, msg).received == s.received + taken
    ensures q.head == old(q.head) && q.tail == old(q.tail)
  {
    hide MsgQueue.Linked, Messages, MsgQueue.Queue.Chained, MsgQueue.Queue.Contents;
    taken := [];
    nullWrite := false;
    match s.threads[t] {
      case Enqueuer(Locked(m)) =>
        var node := NodeFor(m);
        q.Link(node);
      case Enqueuer(Linked) =>
        q.length := Wrap(q.length + 1);
      case Dequeuer(Entered) =>
        q.Ends();
        nullWrite := q.tail.prev != null && q.tail.prev.prev == null;
        if !nullWrite {
          var node := q.Unlink();
          taken := [Message(node.raw, node.kind, node.peer)];
        }
      case Dequeuer(Unlinked) =>
        q.length := Wrap(q.length - 1);
      case _ =>
    }
  }
}
