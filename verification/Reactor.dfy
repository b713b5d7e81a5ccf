/** The server's concurrency (serverV2.cpp, HandleServerV2.cpp): one main loop around epoll, ten workers, and a
    queue of descriptors guarded by a mutex and a condition variable.
    Every action is one atomic step of one thread, or an event outside; an arbitrary list of actions is an
    arbitrary interleaving. */
module Reactor {

  const WORKERS: nat := 10

  /** An event of one `epoll_wait` batch: the listening socket, or a connection with or without EPOLLIN. */
  datatype Event = Connecting | Ready(fd: int, readable: bool)

  datatype Main =
    | Dispatching       // looks at the next event of the batch, or waits when there is none
    | Registering(fd: int) // has accepted the connection and not yet armed it
    | Locking(fd: int)  // has counted the request, wants the mutex
    | Pushing(fd: int)  // holds the mutex
    | Broadcasting      // holds the mutex, has pushed
    | Releasing         // holds the mutex, has broadcast

  datatype Worker =
    | Idle              // at the top of its loop, wants the mutex
    | Testing           // holds the mutex, about to test whether the queue is empty
    | Asleep            // in the condition wait
    | Woken             // in the condition wait, signalled, wants the mutex back
    | Popping           // holds the mutex, has seen a non-empty queue
    | Leaving(fd: int)  // holds the mutex, has taken fd
    | Reading(fd: int)  // receives from fd
    | Handling(fd: int) // has the whole message
    | Rearmed           // has re-armed its connection and not yet counted it as handled
    | Exited            // found the connection closed, closed it and returned

  datatype Holder = Nobody | MainThread | WorkerThread(w: nat)

  datatype State = State(
    main: Main,
    batch: seq<Event>,   // events not yet looked at
    workers: seq<Worker>,
    mutex: Holder,
    queue: seq<int>,
    open: set<int>,      // descriptors of connections
    armed: set<int>,     // those epoll will report
    dropped: set<int>,   // those reported without EPOLLIN, which nothing ever re-arms
    received: nat,       // total_recv_request
    handled: nat,        // total_handle
    closed: nat,         // connections closed by workers
    pushed: seq<int>,    // history: everything ever pushed
    popped: seq<int>     // history: everything ever popped
  )

  datatype Action =
    | Deliver(events: seq<Event>)
    | Accept(fd: int)
    | Arm
    | Drop
    | Count
    | MainLock
    | Push
    | Broadcast
    | MainUnlock
    | Lock(w: nat)
    | Test(w: nat)
    | Wake(w: nat)      // a spurious wake-up
    | Relock(w: nat)
    | Pop(w: nat)
    | Unlock(w: nat)
    | Receive(w: nat)
    | Close(w: nat)
    | Rearm(w: nat)
    | Finish(w: nat)

  function Times(fd: int, s: seq<int>): nat {
    if s == [] then 0 else (if s[0] == fd then 1 else 0) + Times(fd, s[1..])
  }

  function TimesReported(fd: int, events: seq<Event>): nat {
    if events == [] then 0
    else (if events[0].Ready? && events[0].fd == fd then 1 else 0) + TimesReported(fd, events[1..])
  }

  predicate IsWorker(s: State, w: nat, pc: Worker) {
    w < |s.workers| && s.workers[w] == pc
  }

  /** What epoll, the kernel and the program text allow next. A batch holds each armed descriptor at most once;
      `accept` returns a descriptor that is not in use, possibly one that was closed before. */
  ghost predicate Enabled(s: State, a: Action) {
    match a
    case Deliver(events) => s.main.Dispatching? && s.batch == [] &&
                            forall fd :: TimesReported(fd, events) <= if fd in s.armed then 1 else 0
    case Accept(fd) => s.main.Dispatching? && s.batch != [] && s.batch[0].Connecting? && fd !in s.open
    case Arm => s.main.Registering?
    case Drop => s.main.Dispatching? && s.batch != [] && s.batch[0].Ready? && !s.batch[0].readable
    case Count => s.main.Dispatching? && s.batch != [] && s.batch[0].Ready? && s.batch[0].readable
    case MainLock => s.main.Locking? && s.mutex.Nobody?
    case Push => s.main.Pushing?
    case Broadcast => s.main.Broadcasting?
    case MainUnlock => s.main.Releasing?
    case Lock(w) => IsWorker(s, w, Idle) && s.mutex.Nobody?
    case Test(w) => IsWorker(s, w, Testing)
    case Wake(w) => IsWorker(s, w, Asleep)
    case Relock(w) => IsWorker(s, w, Woken) && s.mutex.Nobody?
    case Pop(w) => IsWorker(s, w, Popping)
    case Unlock(w) => w < |s.workers| && s.workers[w].Leaving?
    case Receive(w) => w < |s.workers| && s.workers[w].Reading?
    case Close(w) => w < |s.workers| && s.workers[w].Reading?
    case Rearm(w) => w < |s.workers| && s.workers[w].Handling?
    case Finish(w) => IsWorker(s, w, Rearmed)
  }

  function Signalled(workers: seq<Worker>): seq<Worker> {
    seq(|workers|, w requires 0 <= w < |workers| => if workers[w].Asleep? then Woken else workers[w])
  }

  function At(s: State, w: nat, pc: Worker): State
    requires w < |s.workers|
  {
    s.(workers := s.workers[w := pc])
  }

  ghost function Next(s: State, a: Action): State
    requires Enabled(s, a)
    requires a.Pop? ==> s.queue != [] // `front` and `pop` are undefined on an empty queue
  {
    match a
    case Deliver(events) => s.(batch := events, armed := set fd | fd in s.armed && TimesReported(fd, events) == 0)
    case Accept(fd) => s.(main := Registering(fd), batch := s.batch[1..], open := s.open + {fd})
    case Arm => s.(main := Dispatching, armed := s.armed + {s.main.fd})
    case Drop => s.(batch := s.batch[1..], dropped := s.dropped + {s.batch[0].fd})
    case Count => s.(main := Locking(s.batch[0].fd), batch := s.batch[1..], received := s.received + 1)
    case MainLock => s.(main := Pushing(s.main.fd), mutex := MainThread)
    case Push => s.(main := Broadcasting, queue := s.queue + [s.main.fd], pushed := s.pushed + [s.main.fd])
    case Broadcast => s.(main := Releasing, workers := Signalled(s.workers))
    case MainUnlock => s.(main := Dispatching, mutex := Nobody)
    case Lock(w) => At(s, w, Testing).(mutex := WorkerThread(w))
    case Test(w) => if s.queue == [] then At(s, w, Asleep).(mutex := Nobody) else At(s, w, Popping)
    case Wake(w) => At(s, w, Woken)
    case Relock(w) => At(s, w, Testing).(mutex := WorkerThread(w))
    case Pop(w) => At(s, w, Leaving(s.queue[0])).(queue := s.queue[1..], popped := s.popped + [s.queue[0]])
    case Unlock(w) => At(s, w, Reading(s.workers[w].fd)).(mutex := Nobody)
    case Receive(w) => At(s, w, Handling(s.workers[w].fd))
    case Close(w) => At(s, w, Exited).(open := s.open - {s.workers[w].fd}, armed := s.armed - {s.workers[w].fd},
                                       closed := s.closed + 1)
    case Rearm(w) => At(s, w, Rearmed).(armed := s.armed + {s.workers[w].fd})
    case Finish(w) => At(s, w, Idle).(handled := s.handled + 1)
  }

  function Init(): State {
    State(Dispatching, [], seq(WORKERS, _ => Idle), Nobody, [], {}, {}, {}, 0, 0, 0, [], [])
  }

  // Where every connection is

  function Owns(fd: int): Worker -> nat {
    (w: Worker) => if (w.Leaving? || w.Reading? || w.Handling?) && w.fd == fd then 1 else 0
  }

  function MainHas(fd: int, m: Main): nat {
    if (m.Registering? || m.Locking? || m.Pushing?) && m.fd == fd then 1 else 0
  }

  function Sum(f: Worker -> nat, workers: seq<Worker>): nat {
    if workers == [] then 0 else f(workers[0]) + Sum(f, workers[1..])
  }

  /** The number of places a descriptor is in: armed, reported and not yet looked at, in the main thread's hands,
      in the queue, in some worker's hands, or dropped. */
  function Places(s: State, fd: int): nat {
    (if fd in s.armed then 1 else 0) + TimesReported(fd, s.batch) + MainHas(fd, s.main) + Times(fd, s.queue)
      + Sum(Owns(fd), s.workers) + (if fd in s.dropped then 1 else 0)
  }

  /** Every open connection is in exactly one place exactly once, and no closed one is anywhere. */
  ghost predicate ExactlyOnePlace(s: State) {
    forall fd :: Places(s, fd) == if fd in s.open then 1 else 0
  }

  ghost predicate MutualExclusion(s: State) {
    && (s.mutex.MainThread? <==> s.main.Pushing? || s.main.Broadcasting? || s.main.Releasing?)
    && (s.mutex.WorkerThread? ==> s.mutex.w < |s.workers|)
    && forall w :: 0 <= w < |s.workers| ==>
         (s.mutex == WorkerThread(w) <==> s.workers[w].Testing? || s.workers[w].Popping? || s.workers[w].Leaving?)
  }

  /** A worker sleeps only while the queue is empty, except between a push and its broadcast; and a worker about to
      pop has something to pop. */
  ghost predicate NoLostWakeup(s: State) {
    forall w :: 0 <= w < |s.workers| ==>
      && (s.workers[w].Asleep? ==> s.queue == [] || s.main.Broadcasting?)
      && (s.workers[w].Popping? ==> s.queue != [])
  }

  ghost predicate InOrder(s: State) {
    s.pushed == s.popped + s.queue
  }

  function Busy(w: Worker): nat {
    if w.Leaving? || w.Reading? || w.Handling? || w.Rearmed? then 1 else 0
  }

  function Gone(w: Worker): nat {
    if w.Exited? then 1 else 0
  }

  function CountedNotPushed(m: Main): nat {
    if m.Locking? || m.Pushing? then 1 else 0
  }

  /** Every request received is handled, waiting or being worked on, or has cost the pool a worker. */
  ghost predicate Counted(s: State) {
    && s.received == s.handled + |s.queue| + CountedNotPushed(s.main) + Sum(Busy, s.workers) + s.closed
    && s.closed == Sum(Gone, s.workers)
  }

  ghost predicate Inv(s: State) {
    |s.workers| == WORKERS && ExactlyOnePlace(s) && MutualExclusion(s) && NoLostWakeup(s) && InOrder(s) && Counted(s)
  }

  // Bookkeeping lemmas

  lemma {:induction false} SumUpdate(f: Worker -> nat, workers: seq<Worker>, w: nat, pc: Worker)
    requires w < |workers|
    ensures Sum(f, workers[w := pc]) + f(workers[w]) == Sum(f, workers) + f(pc)
  {
    if w > 0 {
      assert workers[w := pc][1..] == workers[1..][w - 1 := pc];
      SumUpdate(f, workers[1..], w - 1, pc);
    } else {
      assert workers[w := pc][1..] == workers[1..];
    }
  }

  lemma {:induction false} SignalledKeeps(f: Worker -> nat, workers: seq<Worker>)
    requires f(Asleep) == f(Woken)
    ensures Sum(f, Signalled(workers)) == Sum(f, workers)
  {
    if workers != [] {
      assert Signalled(workers)[1..] == Signalled(workers[1..]);
      SignalledKeeps(f, workers[1..]);
    }
  }

  lemma {:induction false} AllIdle(f: Worker -> nat, n: nat)
    requires f(Idle) == 0
    ensures Sum(f, seq(n, _ => Idle)) == 0
  {
    if n > 0 {
      assert seq(n, _ => Idle)[1..] == seq(n - 1, _ => Idle);
      AllIdle(f, n - 1);
    }
  }

  lemma {:induction false} TimesAppend(fd: int, s: seq<int>, x: int)
    ensures Times(fd, s + [x]) == Times(fd, s) + if x == fd then 1 else 0
  {
    if s != [] {
      assert (s + [x])[1..] == s[1..] + [x];
      TimesAppend(fd, s[1..], x);
    }
  }

  lemma WorkerMoved(f: Worker -> nat, s: State, a: Action)
    requires Actor(a) >= 0 && Enabled(s, a) && (a.Pop? ==> s.queue != [])
    ensures var w, s' := Actor(a), Next(s, a);
      && w < |s.workers| && |s'.workers| == |s.workers|
      && Sum(f, s'.workers) + f(s.workers[w]) == Sum(f, s.workers) + f(s'.workers[w])
  {
    var w := Actor(a);
    var pc := Next(s, a).workers[w];
    assert Next(s, a).workers == s.workers[w := pc];
    SumUpdate(f, s.workers, w, pc);
  }

  // Every step keeps every invariant

  lemma PopHasSomething(s: State, a: Action)
    requires Inv(s) && Enabled(s, a)
    ensures a.Pop? ==> s.queue != []
  {
  }

  lemma StepKeepsOrder(s: State, a: Action)
    requires |s.workers| == WORKERS && InOrder(s) && Enabled(s, a) && (a.Pop? ==> s.queue != [])
    ensures InOrder(Next(s, a)) && |Next(s, a).workers| == WORKERS
  {
  }

  /** The worker that an action moves, if any. */
  function Actor(a: Action): int {
    match a
    case Lock(w) => w
    case Test(w) => w
    case Wake(w) => w
    case Relock(w) => w
    case Pop(w) => w
    case Unlock(w) => w
    case Receive(w) => w
    case Close(w) => w
    case Rearm(w) => w
    case Finish(w) => w
    case _ => -1
  }

  lemma WorkerStepKeepsMutex(s: State, a: Action)
    requires Actor(a) >= 0 && MutualExclusion(s) && Enabled(s, a) && (a.Pop? ==> s.queue != [])
    ensures MutualExclusion(Next(s, a))
  {
  }

  lemma MainStepKeepsMutex(s: State, a: Action)
    requires Actor(a) < 0 && MutualExclusion(s) && Enabled(s, a)
    ensures MutualExclusion(Next(s, a))
  {
  }

  lemma StepLosesNoWakeup(s: State, a: Action)
    requires MutualExclusion(s) && NoLostWakeup(s) && Enabled(s, a) && (a.Pop? ==> s.queue != [])
    ensures NoLostWakeup(Next(s, a))
  {
  }

  lemma WorkerStepKeepsCount(s: State, a: Action)
    requires Actor(a) >= 0 && Counted(s) && Enabled(s, a) && (a.Pop? ==> s.queue != [])
    ensures Counted(Next(s, a))
  {
    WorkerMoved(Busy, s, a);
    WorkerMoved(Gone, s, a);
  }

  lemma MainStepKeepsCount(s: State, a: Action)
    requires Actor(a) < 0 && Counted(s) && Enabled(s, a)
    ensures Counted(Next(s, a))
  {
    SignalledKeeps(Busy, s.workers);
    SignalledKeeps(Gone, s.workers);
  }

  lemma WorkerStepKeepsPlaces(s: State, a: Action, fd: int)
    requires Actor(a) >= 0 && Enabled(s, a) && (a.Pop? ==> s.queue != [])
    requires Places(s, fd) == if fd in s.open then 1 else 0
    ensures Places(Next(s, a), fd) == if fd in Next(s, a).open then 1 else 0
  {
    WorkerMoved(Owns(fd), s, a);
  }

  lemma MainStepKeepsPlaces(s: State, a: Action, fd: int)
    requires Actor(a) < 0 && Enabled(s, a)
    requires Places(s, fd) == if fd in s.open then 1 else 0
    ensures Places(Next(s, a), fd) == if fd in Next(s, a).open then 1 else 0
  {
    SignalledKeeps(Owns(fd), s.workers);
    if a.Push? {
      TimesAppend(fd, s.queue, s.main.fd);
    }
  }

  /** The invariant holds at the start and no step of any thread breaks it. */
  lemma InitInv()
    ensures Inv(Init())
  {
    AllIdle(Busy, WORKERS);
    AllIdle(Gone, WORKERS);
    forall fd
      ensures Places(Init(), fd) == 0
    {
      AllIdle(Owns(fd), WORKERS);
    }
  }

  lemma StepKeepsInv(s: State, a: Action)
    requires Inv(s) && Enabled(s, a)
    ensures a.Pop? ==> s.queue != []
    ensures Inv(Next(s, a))
  {
    PopHasSomething(s, a);
    StepKeepsOrder(s, a);
    StepLosesNoWakeup(s, a);
    forall fd
      ensures Places(Next(s, a), fd) == if fd in Next(s, a).open then 1 else 0
    {
      if Actor(a) >= 0 {
        WorkerStepKeepsPlaces(s, a, fd);
      } else {
        MainStepKeepsPlaces(s, a, fd);
      }
    }
    if Actor(a) >= 0 {
      WorkerStepKeepsMutex(s, a);
      WorkerStepKeepsCount(s, a);
    } else {
      MainStepKeepsMutex(s, a);
      MainStepKeepsCount(s, a);
    }
  }

  // Every interleaving

  ghost predicate Runs(s: State, actions: seq<Action>, last: State)
    decreases |actions|
  {
    if actions == [] then s == last
    else
      Enabled(s, actions[0]) && (actions[0].Pop? ==> s.queue != []) && Runs(Next(s, actions[0]), actions[1..], last)
  }

  ghost predicate Reachable(s: State) {
    exists actions :: Runs(Init(), actions, s)
  }

  lemma {:induction false} RunKeepsInv(s: State, actions: seq<Action>, last: State)
    requires Inv(s) && Runs(s, actions, last)
    ensures Inv(last)
    decreases |actions|
  {
    if actions != [] {
      StepKeepsInv(s, actions[0]);
      RunKeepsInv(Next(s, actions[0]), actions[1..], last);
    }
  }

  lemma ReachableInv(s: State)
    requires Reachable(s)
    ensures Inv(s)
  {
    var actions :| Runs(Init(), actions, s);
    InitInv();
    RunKeepsInv(Init(), actions, s);
  }

  /** In every interleaving each open connection is in exactly one place: armed, reported, in the main thread's hands,
      queued, in a worker's hands, or dropped. A closed one is in none. */
  lemma ConnectionIsInOnePlace(s: State, fd: int)
    requires Reachable(s)
    ensures Places(s, fd) == if fd in s.open then 1 else 0
  {
    ReachableInv(s);
  }

  lemma {:induction false} SumHasTerm(f: Worker -> nat, workers: seq<Worker>, w: nat)
    requires w < |workers|
    ensures Sum(f, workers) >= f(workers[w])
  {
    if w > 0 {
      SumHasTerm(f, workers[1..], w - 1);
    }
  }

  lemma {:induction false} SumHasTerms(f: Worker -> nat, workers: seq<Worker>, v: nat, w: nat)
    requires v < w < |workers|
    ensures Sum(f, workers) >= f(workers[v]) + f(workers[w])
  {
    if v > 0 {
      SumHasTerms(f, workers[1..], v - 1, w - 1);
    } else {
      SumHasTerm(f, workers[1..], w - 1);
    }
  }

  predicate OwnedBy(s: State, fd: int, w: nat) {
    w < |s.workers| && Owns(fd)(s.workers[w]) == 1
  }

  /** A connection that a worker reads, handles or closes is open, belongs to no other worker, is not armed and so
      cannot be reported, and is not queued, in the batch or in the main thread's hands. */
  lemma OwnerIsAlone(s: State, fd: int, w: nat)
    requires Reachable(s) && OwnedBy(s, fd, w)
    ensures fd in s.open && fd !in s.armed && fd !in s.dropped && Times(fd, s.queue) == 0
    ensures TimesReported(fd, s.batch) == 0 && MainHas(fd, s.main) == 0
    ensures forall v: nat :: OwnedBy(s, fd, v) ==> v == w
  {
    ReachableInv(s);
    assert Places(s, fd) <= 1;
    SumHasTerm(Owns(fd), s.workers, w);
    forall v: nat | OwnedBy(s, fd, v)
      ensures v == w
    {
      if v < w {
        SumHasTerms(Owns(fd), s.workers, v, w);
      } else if w < v {
        SumHasTerms(Owns(fd), s.workers, w, v);
      }
    }
  }

  /** When `accept` hands out a descriptor number again, nothing in the server still refers to its former life. */
  lemma ReusedDescriptorIsNowhere(s: State, fd: int, w: nat)
    requires Reachable(s) && Enabled(s, Accept(fd))
    ensures fd !in s.armed && fd !in s.dropped && Times(fd, s.queue) == 0 && TimesReported(fd, s.batch) == 0
    ensures !OwnedBy(s, fd, w)
  {
    ReachableInv(s);
    assert Places(s, fd) == 0;
    if OwnedBy(s, fd, w) {
      SumHasTerm(Owns(fd), s.workers, w);
    }
  }

  /** No wake-up is lost: when the mutex is free and work is waiting, no worker sleeps unsignalled, and each one that
      is neither busy nor gone can take the mutex at once. A worker that pops always has something to pop. */
  lemma WorkIsNoticed(s: State, w: nat)
    requires Reachable(s) && w < |s.workers|
    ensures Enabled(s, Pop(w)) ==> s.queue != []
    ensures s.mutex.Nobody? && s.queue != [] ==>
              Busy(s.workers[w]) == 1 || s.workers[w].Exited? || Enabled(s, Lock(w)) || Enabled(s, Relock(w))
  {
    ReachableInv(s);
    WorkIsNoticedBy(s, w);
  }

  lemma WorkIsNoticedBy(s: State, w: nat)
    requires MutualExclusion(s) && NoLostWakeup(s) && w < |s.workers|
    ensures Enabled(s, Pop(w)) ==> s.queue != []
    ensures s.mutex.Nobody? && s.queue != [] ==>
              Busy(s.workers[w]) == 1 || s.workers[w].Exited? || Enabled(s, Lock(w)) || Enabled(s, Relock(w))
  {
  }

  /** A worker that wakes without cause tests the queue again and goes back to sleep, as if nothing had happened. */
  lemma SpuriousWakeIsHarmless(s: State, w: nat)
    requires IsWorker(s, w, Asleep) && s.mutex.Nobody? && s.queue == []
    ensures Runs(s, [Wake(w), Relock(w), Test(w)], s)
  {
    var s1 := Next(s, Wake(w));
    var s2 := Next(s1, Relock(w));
    assert Next(s2, Test(w)).workers == s.workers;
    var actions := [Wake(w), Relock(w), Test(w)];
    assert actions[1..] == [Relock(w), Test(w)] && actions[1..][1..] == [Test(w)] && [Test(w)][1..] == [];
    assert Runs(s2, [Test(w)], s);
    assert Runs(s1, actions[1..], s);
  }

  /** Requests are served in the order they came, and none is lost or counted twice. */
  lemma RequestsAreConserved(s: State)
    requires Reachable(s)
    ensures s.pushed == s.popped + s.queue
    ensures s.received == s.handled + |s.queue| + CountedNotPushed(s.main) + Sum(Busy, s.workers) + s.closed
    ensures s.closed + Sum(Live, s.workers) == 10
  {
    ReachableInv(s);
    LiveOrGone(s.workers);
  }

  function Live(w: Worker): nat {
    if w.Exited? then 0 else 1
  }

  lemma {:induction false} LiveOrGone(workers: seq<Worker>)
    ensures Sum(Live, workers) + Sum(Gone, workers) == |workers|
  {
    if workers != [] {
      LiveOrGone(workers[1..]);
    }
  }

  // What the pool can still do

  lemma {:induction false} SomeLive(workers: seq<Worker>) returns (w: nat)
    requires Sum(Live, workers) > 0
    ensures w < |workers| && !workers[w].Exited?
  {
    if workers[0].Exited? {
      w := SomeLive(workers[1..]);
      w := w + 1;
    } else {
      w := 0;
    }
  }

  function PcRank(w: Worker): nat {
    match w
    case Leaving(_) => 8
    case Reading(_) => 7
    case Handling(_) => 6
    case Rearmed => 5
    case Testing => 3
    case Popping => 2
    case _ => 4
  }

  function MutexRank(s: State): nat {
    match s.mutex
    case Nobody => 0
    case MainThread => if s.main.Pushing? then 3 else if s.main.Broadcasting? then 2 else 1
    case WorkerThread(v) => if v < |s.workers| && s.workers[v].Testing? then 2 else 1
  }

  /** What whoever holds the mutex does next, or else what worker `w` does next if its peer stays connected. */
  function Urgent(s: State, w: nat): Action
    requires w < |s.workers|
  {
    match s.mutex
    case MainThread => if s.main.Pushing? then Push else if s.main.Broadcasting? then Broadcast else MainUnlock
    case WorkerThread(v) =>
      if v < |s.workers| && s.workers[v].Testing? then Test(v)
      else if v < |s.workers| && s.workers[v].Popping? then Pop(v) else Unlock(v)
    case Nobody =>
      match s.workers[w]
      case Reading(_) => Receive(w)
      case Handling(_) => Rearm(w)
      case Rearmed => Finish(w)
      case Woken => Relock(w)
      case _ => Lock(w)
  }

  lemma UrgentIsEnabled(s: State, w: nat)
    requires MutualExclusion(s) && NoLostWakeup(s) && s.queue != [] && w < |s.workers| && !s.workers[w].Exited?
    ensures Enabled(s, Urgent(s, w))
  {
  }

  lemma UrgentMakesProgress(s: State, w: nat)
    requires MutualExclusion(s) && NoLostWakeup(s) && s.queue != [] && w < |s.workers| && !s.workers[w].Exited?
    requires Enabled(s, Urgent(s, w)) && !Urgent(s, w).Pop?
    ensures var s' := Next(s, Urgent(s, w));
      && |s'.workers| == |s.workers| && !s'.workers[w].Exited? && s'.queue != [] && s'.popped == s.popped
      && (PcRank(s'.workers[w]) < PcRank(s.workers[w]) ||
          (PcRank(s'.workers[w]) == PcRank(s.workers[w]) && MutexRank(s') < MutexRank(s)))
  {
  }

  /** As long as one worker lives, waiting work can still be taken. */
  lemma {:induction false} CanServe(s: State, w: nat) returns (actions: seq<Action>, last: State)
    requires Inv(s) && s.queue != [] && w < |s.workers| && !s.workers[w].Exited?
    ensures Runs(s, actions, last) && |last.popped| > |s.popped|
    decreases PcRank(s.workers[w]), MutexRank(s)
  {
    var a := Urgent(s, w);
    UrgentIsEnabled(s, w);
    StepKeepsInv(s, a);
    var s' := Next(s, a);
    if a.Pop? {
      actions, last := [a], s';
      assert Runs(s', actions[1..], s');
    } else {
      UrgentMakesProgress(s, w);
      var rest;
      rest, last := CanServe(s', w);
      actions := [a] + rest;
      assert actions[1..] == rest;
    }
  }

  lemma DeadStaysDead(s: State, a: Action)
    requires Sum(Live, s.workers) == 0 && Enabled(s, a) && (a.Pop? ==> s.queue != [])
    ensures Actor(a) < 0 && Sum(Live, Next(s, a).workers) == 0
  {
    if Actor(a) >= 0 {
      SumHasTerm(Live, s.workers, Actor(a));
    }
    SignalledKeeps(Live, s.workers);
  }

  /** Once every worker is gone, nothing is taken from the queue again, whatever happens. */
  lemma {:induction false} DeadPoolServesNothing(s: State, actions: seq<Action>, last: State)
    requires Inv(s) && Sum(Live, s.workers) == 0 && Runs(s, actions, last)
    ensures last.popped == s.popped && last.handled == s.handled
    decreases |actions|
  {
    if actions != [] {
      StepKeepsInv(s, actions[0]);
      DeadStaysDead(s, actions[0]);
      DeadPoolServesNothing(Next(s, actions[0]), actions[1..], last);
    }
  }

  ghost predicate CanStillBeServed(s: State) {
    exists actions, last :: Runs(s, actions, last) && |last.popped| > |s.popped|
  }

  /** Each connection that a worker finds closed costs the pool that worker. Waiting requests can still be served
      if and only if fewer connections than there were workers have been closed so. */
  lemma ServedIffWorkerLeft(s: State)
    requires Reachable(s) && s.queue != []
    ensures CanStillBeServed(s) <==> s.closed < 10
  {
    ReachableInv(s);
    LiveOrGone(s.workers);
    if s.closed < WORKERS {
      var w := SomeLive(s.workers);
      var actions, last := CanServe(s, w);
      assert CanStillBeServed(s);
    } else if CanStillBeServed(s) {
      var actions, last :| Runs(s, actions, last) && |last.popped| > |s.popped|;
      DeadPoolServesNothing(s, actions, last);
    }
  }

  // A run that ends all workers

  lemma {:induction false} RunsThen(s: State, actions: seq<Action>, mid: State, a: Action)
    requires Runs(s, actions, mid) && Enabled(mid, a) && (a.Pop? ==> mid.queue != [])
    ensures Runs(s, actions + [a], Next(mid, a))
    decreases |actions|
  {
    if actions == [] {
      assert [a][1..] == [];
    } else {
      RunsThen(Next(s, actions[0]), actions[1..], mid, a);
      assert (actions + [a])[1..] == actions[1..] + [a];
    }
  }

  lemma ReachableThen(s: State, a: Action) returns (s': State)
    requires Reachable(s) && Enabled(s, a) && (a.Pop? ==> s.queue != [])
    ensures s' == Next(s, a) && Reachable(s')
  {
    var actions :| Runs(Init(), actions, s);
    RunsThen(Init(), actions, s, a);
    s' := Next(s, a);
  }

  /** The first `k` workers are gone, the others idle. */
  function Survivors(k: nat): seq<Worker> {
    seq(WORKERS, w => if w < k then Exited else Idle)
  }

  /** Between requests, with the connections `fds` in the queue and no others open. */
  ghost predicate Quiet(s: State, k: nat, fds: seq<int>) {
    && s.main.Dispatching? && s.batch == [] && s.workers == Survivors(k) && s.mutex.Nobody?
    && s.queue == fds && s.open == (set fd | fd in fds) && s.armed == {}
  }

  lemma ArrivesOnce(e: Event, fd: int)
    ensures TimesReported(fd, [e]) == if e.Ready? && e.fd == fd then 1 else 0
  {
    assert [e][1..] == [];
  }

  /** A client connects. */
  lemma Connects(s: State, k: nat) returns (s': State)
    requires Reachable(s) && Quiet(s, k, [])
    ensures Reachable(s') && s'.main.Dispatching? && s'.batch == [] && s'.workers == Survivors(k) && s'.mutex.Nobody?
    ensures s'.queue == [] && s'.open == {0} && s'.armed == {0}
  {
    forall fd
      ensures TimesReported(fd, [Connecting]) == 0
    {
      ArrivesOnce(Connecting, fd);
    }
    s' := ReachableThen(s, Deliver([Connecting]));
    s' := ReachableThen(s', Accept(0));
    s' := ReachableThen(s', Arm);
  }

  /** A connection can come to be dropped. */
  lemma DropHappens()
    ensures exists s :: Reachable(s) && 0 in s.dropped && 0 in s.open
  {
    var e := Ready(0, false);
    var s := LosesWorkers(0);
    s := Connects(s, 0);
    forall fd
      ensures TimesReported(fd, [e]) == if fd == 0 then 1 else 0
    {
      ArrivesOnce(e, fd);
    }
    s := ReachableThen(s, Deliver([e]));
    s := ReachableThen(s, Drop);
  }

  /** Its request is reported and pushed. */
  lemma Asks(s: State, k: nat) returns (s': State)
    requires Reachable(s) && Quiet(s, k, [])
    ensures Reachable(s') && Quiet(s', k, [0])
  {
    var e := Ready(0, true);
    s' := Connects(s, k);
    forall fd
      ensures TimesReported(fd, [e]) == if fd == 0 then 1 else 0
    {
      ArrivesOnce(e, fd);
    }
    s' := ReachableThen(s', Deliver([e]));
    s' := ReachableThen(s', Count);
    s' := ReachableThen(s', MainLock);
    s' := ReachableThen(s', Push);
    s' := ReachableThen(s', Broadcast);
    s' := ReachableThen(s', MainUnlock);
    assert Signalled(Survivors(k)) == Survivors(k);
  }

  /** The next worker takes the request, finds the connection closed and returns. */
  lemma LosesWorker(s: State, k: nat) returns (s': State)
    requires Reachable(s) && Quiet(s, k, [0]) && k < WORKERS
    ensures Reachable(s') && Quiet(s', k + 1, [])
  {
    s' := ReachableThen(s, Lock(k));
    s' := ReachableThen(s', Test(k));
    s' := ReachableThen(s', Pop(k));
    s' := ReachableThen(s', Unlock(k));
    s' := ReachableThen(s', Close(k));
    assert s'.workers == Survivors(k + 1);
  }

  lemma {:induction false} LosesWorkers(k: nat) returns (s: State)
    requires k <= WORKERS
    ensures Reachable(s) && Quiet(s, k, [])
  {
    if k == 0 {
      s := Init();
      assert Runs(Init(), [], s);
      assert s.workers == Survivors(0);
    } else {
      s := LosesWorkers(k - 1);
      s := Asks(s, k - 1);
      s := LosesWorker(s, k - 1);
    }
  }

  lemma {:induction false} NoneLive(n: nat)
    ensures Sum(Live, seq(n, _ => Exited)) == 0
  {
    if n > 0 {
      assert seq(n, _ => Exited)[1..] == seq(n - 1, _ => Exited);
      NoneLive(n - 1);
    }
  }

  /** Ten clients that connect and close are enough: a request then waits that nothing will ever serve. */
  lemma PoolCanDie()
    ensures exists s :: Reachable(s) && s.queue != [] && s.closed == 10 && !CanStillBeServed(s)
  {
    var s := LosesWorkers(WORKERS);
    s := Asks(s, WORKERS);
    RequestsAreConserved(s);
    assert Survivors(WORKERS) == seq(WORKERS, _ => Exited);
    NoneLive(WORKERS);
    ServedIffWorkerLeft(s);
  }

  // What becomes of a batch

  /** The reports of a descriptor with, or without, EPOLLIN. */
  function ReportedAs(fd: int, readable: bool, events: seq<Event>): nat {
    if events == [] then 0 else (if events[0] == Ready(fd, readable) then 1 else 0) + ReportedAs(fd, readable, events[1..])
  }

  /** The requests in a batch. */
  function Requests(events: seq<Event>): nat {
    if events == [] then 0 else (if events[0].Ready? && events[0].readable then 1 else 0) + Requests(events[1..])
  }

  lemma {:induction false} ReportedOneWay(fd: int, events: seq<Event>)
    ensures TimesReported(fd, events) == ReportedAs(fd, true, events) + ReportedAs(fd, false, events)
  {
    if events != [] {
      ReportedOneWay(fd, events[1..]);
    }
  }

  lemma {:induction false} ReportedIff(fd: int, readable: bool, events: seq<Event>)
    ensures ReportedAs(fd, readable, events) > 0 <==> Ready(fd, readable) in events
  {
    if events != [] {
      ReportedIff(fd, readable, events[1..]);
      assert events == [events[0]] + events[1..];
    }
  }

  /** Pushes of a descriptor, made and still to be made. */
  function PushesDue(s: State, fd: int): nat {
    Times(fd, s.pushed) + ReportedAs(fd, true, s.batch)
      + (if (s.main.Locking? || s.main.Pushing?) && s.main.fd == fd then 1 else 0)
  }

  function DropsDue(s: State, fd: int): nat {
    (if fd in s.dropped then 1 else 0) + ReportedAs(fd, false, s.batch)
  }

  lemma StepKeepsDue(s: State, a: Action, fd: int)
    requires Places(s, fd) <= 1 && Enabled(s, a) && (a.Pop? ==> s.queue != []) && !a.Deliver?
    ensures PushesDue(Next(s, a), fd) == PushesDue(s, fd) && DropsDue(Next(s, a), fd) == DropsDue(s, fd)
    ensures Next(s, a).received + Requests(Next(s, a).batch) == s.received + Requests(s.batch)
  {
    ReportedOneWay(fd, s.batch);
    if a.Push? {
      TimesAppend(fd, s.pushed, s.main.fd);
    }
  }

  lemma {:induction false} RunKeepsDue(s: State, actions: seq<Action>, last: State, fd: int)
    requires Inv(s) && Runs(s, actions, last) && forall i :: 0 <= i < |actions| ==> !actions[i].Deliver?
    ensures PushesDue(last, fd) == PushesDue(s, fd) && DropsDue(last, fd) == DropsDue(s, fd)
    ensures last.received + Requests(last.batch) == s.received + Requests(s.batch)
    decreases |actions|
  {
    if actions != [] {
      StepKeepsInv(s, actions[0]);
      assert Places(s, fd) <= 1;
      StepKeepsDue(s, actions[0], fd);
      RunKeepsDue(Next(s, actions[0]), actions[1..], last, fd);
    }
  }

  /** From one `epoll_wait` to the next, in every interleaving: each connection reported with EPOLLIN has been counted
      and pushed exactly once more, each one reported without is dropped, and nothing else is pushed or dropped. */
  lemma BatchIsDispatched(s: State, events: seq<Event>, actions: seq<Action>, last: State, fd: int)
    requires Reachable(s) && Enabled(s, Deliver(events)) && Runs(Next(s, Deliver(events)), actions, last)
    requires last.main.Dispatching? && last.batch == [] && forall i :: 0 <= i < |actions| ==> !actions[i].Deliver?
    ensures Times(fd, last.pushed) == Times(fd, s.pushed) + if Ready(fd, true) in events then 1 else 0
    ensures fd in last.dropped <==> fd in s.dropped || Ready(fd, false) in events
    ensures last.received == s.received + Requests(events)
  {
    ReachableInv(s);
    StepKeepsInv(s, Deliver(events));
    RunKeepsDue(Next(s, Deliver(events)), actions, last, fd);
    ReportedOneWay(fd, events);
    ReportedIff(fd, true, events);
    ReportedIff(fd, false, events);
  }

  /** One event: with EPOLLIN the request is counted and about to be pushed; without, its connection is dropped. */
  lemma EventIsDispatched(s: State, a: Action, last: State, fd: int, readable: bool)
    requires Reachable(s) && s.main.Dispatching? && s.batch != [] && s.batch[0] == Ready(fd, readable)
    requires Runs(s, [a], last) && last.batch == s.batch[1..]
    ensures if readable then last.main == Locking(fd) && last.received == s.received + 1 && last.dropped == s.dropped
            else last.main == Dispatching && last.received == s.received && last.dropped == s.dropped + {fd}
  {
    assert [a][1..] == [];
    assert last == Next(s, a);
    assert |last.batch| < |s.batch|;
  }

  /** A connection reported without EPOLLIN is never armed, served or closed again. */
  lemma {:induction false} DroppedForever(s: State, actions: seq<Action>, last: State, fd: int)
    requires Inv(s) && fd in s.dropped && Runs(s, actions, last)
    ensures fd in last.dropped && fd in last.open && fd !in last.armed
    ensures Times(fd, last.pushed) == Times(fd, s.pushed)
    decreases |actions|
  {
    assert Places(s, fd) == 1;
    if actions != [] {
      var a := actions[0];
      StepKeepsInv(s, a);
      if a.Push? {
        TimesAppend(fd, s.pushed, s.main.fd);
      }
      DroppedForever(Next(s, a), actions[1..], last, fd);
    }
  }
}
