// Which locks the code paths take, in which order, and why that order rules out deadlock.
module Locks {

  datatype Lock =
    | RecvLock(session: nat)
    | SendLock(session: nat)
    | SessionMgrLock
    | MsgPoolLock
    | MsgQueueLock
    | OperationQueueLock
    | SessionPoolLock
    | LoggerLock

  function Rank(l: Lock): (r: nat)
    ensures r < 4
  {
    match l
    case RecvLock(_) => 0
    case SendLock(_) => 1
    case LoggerLock => 3
    case _ => 2
  }

  /** What the threads share, and the lock that is meant to protect it. */
  datatype Area =
    | RecvBuffer(session: nat)   // with the count of the bytes received
    | SendBuffer(session: nat)   // with the count of the bytes sent
    | Registry             // the entries, the statuses and the free ids, where they are changed
    | MessagePool
    | MessageQueue
    | OperationQueue
    | SessionSlots
    | LogFile

  function Guard(a: Area): Lock {
    match a
    case RecvBuffer(s) => RecvLock(s)
    case SendBuffer(s) => SendLock(s)
    case Registry => SessionMgrLock
    case MessagePool => MsgPoolLock
    case MessageQueue => MsgQueueLock
    case OperationQueue => OperationQueueLock
    case SessionSlots => SessionPoolLock
    case LogFile => LoggerLock
  }

  /** What a thread does to the outside: everything else takes no lock, never blocks, and touches nothing shared. */
  datatype Action = Acquire(lock: Lock) | Release(lock: Lock) | Work(area: Area) | AwaitSemaphore

  type Program = seq<Action>

  /**
   * Run from the given locks, the program acquires in strictly rising rank, so never a lock it holds; it releases
   * only what it holds; it works on an area only under its lock; it waits on semaphores holding nothing; and it
   * ends holding the locks `last`.
   */
  ghost predicate Ranked(p: Program, held: set<Lock>, last: set<Lock>)
    decreases |p|
  {
    if p == [] then held == last
    else
      match p[0]
      case Acquire(l) => (forall h | h in held :: Rank(h) < Rank(l)) && Ranked(p[1..], held + {l}, last)
      case Release(l) => l in held && Ranked(p[1..], held - {l}, last)
      case Work(a) => Guard(a) in held && Ranked(p[1..], held, last)
      case AwaitSemaphore => held == {} && Ranked(p[1..], held, last)
  }

  // ------------------------------------------------------------------- the theorem

  datatype Thread = Thread(held: set<Lock>, rest: Program)

  type State = map<nat, Thread>

  /** No lock is held twice, and every thread is on a ranked path. */
  ghost predicate Orderly(s: State) {
    && (forall t | t in s :: Ranked(s[t].rest, s[t].held, {}))
    && (forall t, u | t in s && u in s && t != u :: s[t].held !! s[u].held)
  }

  predicate HeldBySomeone(s: State, l: Lock) {
    exists t | t in s :: l in s[t].held
  }

  /** A thread can step unless its next lock is taken, or it waits on a semaphore that gives nothing. */
  ghost predicate CanStep(s: State, t: nat) {
    && t in s && s[t].rest != []
    && match s[t].rest[0]
       case Acquire(l) => !HeldBySomeone(s, l)
       case Release(_) => true
       case Work(_) => true
       case AwaitSemaphore => false
  }

  function After(s: State, t: nat): State
    requires t in s && s[t].rest != []
  {
    var rest := s[t].rest[1..];
    match s[t].rest[0]
    case Acquire(l) => s[t := Thread(s[t].held + {l}, rest)]
    case Release(l) => s[t := Thread(s[t].held - {l}, rest)]
    case Work(_) => s[t := Thread(s[t].held, rest)]
    case AwaitSemaphore => s[t := Thread(s[t].held, rest)]
  }

  datatype Step = Run(t: nat) | Start(t: nat, path: Path)

  /** A thread takes its next action (a semaphore may give its token at any time), or enters another path. */
  ghost predicate Enabled(s: State, step: Step) {
    match step
    case Run(t) => t in s && s[t].rest != [] && (s[t].rest[0].Acquire? ==> CanStep(s, t))
    case Start(t, path) => t in s ==> s[t].rest == []
  }

  function Next(s: State, step: Step): State
    requires Enabled(s, step)
  {
    match step
    case Run(t) => After(s, t)
    case Start(t, path) => s[t := Thread({}, ProgramOf(path))]
  }

  ghost predicate Reached(steps: seq<Step>, s: State, t: State)
    decreases |steps|
  {
    if steps == [] then t == s
    else Enabled(s, steps[0]) && Reached(steps[1..], Next(s, steps[0]), t)
  }

  lemma OrderlyKept(s: State, step: Step)
    requires Orderly(s) && Enabled(s, step)
    ensures Orderly(Next(s, step))
  {
    if step.Run? {
      assert Ranked(s[step.t].rest, s[step.t].held, {});
    } else {
      assert step.t in s ==> Ranked([], s[step.t].held, {});
      PathsAreRanked(step.path);
    }
  }

  lemma {:induction false} OrderlyOfRun(steps: seq<Step>, s: State, t: State)
    requires Orderly(s) && Reached(steps, s, t)
    ensures Orderly(t)
    decreases |steps|
  {
    hide Orderly, Enabled, Next;
    if steps != [] {
      OrderlyKept(s, steps[0]);
      OrderlyOfRun(steps[1..], Next(s, steps[0]), t);
    }
  }

  /** t wants a lock that u holds. */
  ghost predicate WaitsFor(s: State, t: nat, u: nat) {
    t in s && u in s && s[t].rest != [] && s[t].rest[0].Acquire? && s[t].rest[0].lock in s[u].held
  }

  /** Each thread of the chain waits for the next one. */
  ghost predicate WaitChain(s: State, chain: seq<nat>) {
    chain != [] && forall i | 0 <= i < |chain| - 1 :: WaitsFor(s, chain[i], chain[i + 1])
  }

  /** Along a chain the wanted locks rise in rank: whoever holds a lock wants only higher ones. */
  lemma {:induction false} WantedRises(s: State, chain: seq<nat>, i: nat, j: nat)
    requires Orderly(s) && WaitChain(s, chain)
    requires i < j < |chain| - 1
    ensures WaitsFor(s, chain[i], chain[i + 1]) && WaitsFor(s, chain[j], chain[j + 1])
    ensures Rank(s[chain[i]].rest[0].lock) < Rank(s[chain[j]].rest[0].lock)
    decreases j
  {
    assert WaitsFor(s, chain[i], chain[i + 1]) && WaitsFor(s, chain[j - 1], chain[j])
        && WaitsFor(s, chain[j], chain[j + 1]);
    assert Ranked(s[chain[j]].rest, s[chain[j]].held, {});
    if i + 1 < j {
      WantedRises(s, chain, i, j - 1);
    }
  }

  /** No chain of waiting threads closes into a circle. */
  lemma {:induction false} NoCircle(s: State, chain: seq<nat>)
    requires Orderly(s) && WaitChain(s, chain) && |chain| > 1
    ensures chain[0] != chain[|chain| - 1]
  {
    var last := |chain| - 1;
    if chain[0] == chain[last] {
      assert WaitsFor(s, chain[0], chain[1]) && WaitsFor(s, chain[last - 1], chain[last]);
      assert Ranked(s[chain[0]].rest, s[chain[0]].held, {});
      if last > 1 {
        WantedRises(s, chain, 0, last - 1);
      }
      assert false;
    }
  }

  /** From a thread that wants or holds a lock, follow who waits for whom: it ends in a thread that can step. */
  lemma {:induction false} Climb(s: State, t: nat) returns (chain: seq<nat>)
    requires Orderly(s) && t in s
    requires s[t].held != {} || (s[t].rest != [] && !s[t].rest[0].AwaitSemaphore?)
    ensures WaitChain(s, chain) && chain[0] == t && CanStep(s, chain[|chain| - 1])
    ensures |chain| > 1 ==> s[chain[|chain| - 1]].held != {}
    decreases if s[t].rest != [] && s[t].rest[0].Acquire? then 4 - Rank(s[t].rest[0].lock) else 0
  {
    assert Ranked(s[t].rest, s[t].held, {});
    if CanStep(s, t) {
      chain := [t];
    } else {
      var next := s[t].rest[0].lock;
      var owner :| owner in s && next in s[owner].held;
      assert Ranked(s[owner].rest, s[owner].held, {});
      var more := Climb(s, owner);
      assert WaitsFor(s, t, owner);
      chain := [t] + more;
      assert forall i | 0 < i < |chain| - 1 ::
            WaitsFor(s, more[i - 1], more[i]) && chain[i] == more[i - 1] && chain[i + 1] == more[i];
    }
  }

  /**
   * Deadlock freedom, for any number of threads and sessions, in every reachable state: no threads wait for each
   * other in a circle; and every thread that holds or wants a lock can step itself or waits, directly or through
   * others, for a lock holder that can.
   */
  lemma {:induction false} NoDeadlock(steps: seq<Step>, s: State)
    requires Reached(steps, map[], s)
    ensures forall chain | WaitChain(s, chain) && |chain| > 1 :: chain[0] != chain[|chain| - 1]
    ensures forall t | t in s && (s[t].held != {} || (s[t].rest != [] && !s[t].rest[0].AwaitSemaphore?)) ::
              exists chain :: WaitChain(s, chain) && chain[0] == t && CanStep(s, chain[|chain| - 1])
  {
    OrderlyOfRun(steps, map[], s);
    hide Orderly, WaitChain, CanStep, Reached;
    forall chain | WaitChain(s, chain) && |chain| > 1
      ensures chain[0] != chain[|chain| - 1]
    {
      NoCircle(s, chain);
    }
    forall t | t in s && (s[t].held != {} || (s[t].rest != [] && !s[t].rest[0].AwaitSemaphore?))
      ensures exists chain :: WaitChain(s, chain) && chain[0] == t && CanStep(s, chain[|chain| - 1])
    {
      var chain := Climb(s, t);
    }
  }

  /**
   * No two threads ever work on the same area at a time, in any reachable state: whoever is about to holds the lock
   * of the area, and nobody else does.
   */
  lemma {:induction false} NoRace(steps: seq<Step>, s: State, t: nat, u: nat, area: Area)
    requires Reached(steps, map[], s)
    requires t in s && s[t].rest != [] && s[t].rest[0] == Work(area)
    requires u in s && u != t
    ensures Guard(area) in s[t].held && Guard(area) !in s[u].held
    ensures !(s[u].rest != [] && s[u].rest[0] == Work(area))
  {
    OrderlyOfRun(steps, map[], s);
    assert Ranked(s[t].rest, s[t].held, {}) && Ranked(s[u].rest, s[u].held, {});
  }

  // ------------------------------------------------------------- composing programs

  /** From any locks of rank at most r, with the needed ones among them, the program runs ranked and keeps them. */
  ghost predicate Level(p: Program, r: int, need: set<Lock>) {
    forall held: set<Lock> | need <= held && (forall h | h in held :: Rank(h) <= r) :: Ranked(p, held, held)
  }

  lemma {:induction false} RankedAppend(p: Program, q: Program, held: set<Lock>, mid: set<Lock>, last: set<Lock>)
    requires Ranked(p, held, mid) && Ranked(q, mid, last)
    ensures Ranked(p + q, held, last)
    decreases |p|
  {
    if p == [] {
      assert p + q == q;
    } else {
      assert (p + q)[1..] == p[1..] + q && (p + q)[0] == p[0];
      match p[0]
      case Acquire(l) => RankedAppend(p[1..], q, held + {l}, mid, last);
      case Release(l) => RankedAppend(p[1..], q, held - {l}, mid, last);
      case Work(_) => RankedAppend(p[1..], q, held, mid, last);
      case AwaitSemaphore => RankedAppend(p[1..], q, held, mid, last);
    }
  }

  lemma {:induction false} Then(p: Program, q: Program, r: int, need: set<Lock>)
    requires Level(p, r, need) && Level(q, r, need)
    ensures Level(p + q, r, need)
  {
    forall held: set<Lock> | need <= held && forall h | h in held :: Rank(h) <= r
      ensures Ranked(p + q, held, held)
    {
      RankedAppend(p, q, held, held, held);
    }
  }

  /** A MutexGuard around a piece of code. */
  function Guarded(l: Lock, body: Program): Program {
    [Acquire(l)] + body + [Release(l)]
  }

  lemma {:induction false} GuardedLevel(l: Lock, body: Program, r: int, need: set<Lock>)
    requires r < Rank(l) && Level(body, Rank(l), need + {l})
    ensures Level(Guarded(l, body), r, need)
  {
    forall held: set<Lock> | need <= held && forall h | h in held :: Rank(h) <= r
      ensures Ranked(Guarded(l, body), held, held)
    {
      var inside := held + {l};
      assert Ranked(body, inside, inside);
      assert inside - {l} == held;
      assert Ranked([], held, held);
      assert [Release(l)][1..] == [];
      assert Ranked([Release(l)], inside, held);
      RankedAppend(body, [Release(l)], inside, inside, held);
      assert ([Acquire(l)] + body + [Release(l)])[1..] == body + [Release(l)];
    }
  }

  lemma {:induction false} NothingLevel(r: int, need: set<Lock>)
    ensures Level([], r, need)
  {
  }

  lemma {:induction false} WorkLevel(a: Area, r: int, need: set<Lock>)
    requires Guard(a) in need
    ensures Level([Work(a)], r, need)
  {
    forall held: set<Lock> | need <= held && forall h | h in held :: Rank(h) <= r
      ensures Ranked([Work(a)], held, held)
    {
      assert [Work(a)][1..] == [];
      assert Ranked([], held, held);
    }
  }

  // ------------------------------------------------------------------ the code paths

  /** Some work on an area, under its lock. */
  function Using(a: Area): Program {
    Guarded(Guard(a), [Work(a)])
  }

  /** Any number of log entries. */
  function Log(entries: nat): Program {
    if entries == 0 then [] else Using(LogFile) + Log(entries - 1)
  }

  /** The allocators and AllocateMsg log under the pool's lock; callers log a failure after it has been given up. */
  function AllocateMsg(logsInside: nat): Program {
    Guarded(MsgPoolLock, [Work(MessagePool)] + Log(logsInside))
  }

  /** The lock is given up before the semaphore is posted. */
  function InsertMsg(): Program {
    Using(MessageQueue)
  }

  datatype Delivery = Delivery(logsInside: nat, stored: bool, inserted: bool)

  /** A message is allocated, filled in and inserted. */
  function Deliver(d: Delivery, fillIn: Program): Program {
    AllocateMsg(d.logsInside)
    + if d.stored then fillIn + (InsertMsg() + Log(if d.inserted then 0 else 1)) else Log(1)
  }

  /** Every round looks at the buffer, and copies and cuts a frame once its message has been allocated. */
  function ExtractMsg(s: nat, ds: seq<Delivery>): Program {
    [Work(RecvBuffer(s))]
    + if ds == [] then [] else Deliver(ds[0], [Work(RecvBuffer(s))]) + ExtractMsg(s, ds[1..])
  }

  function DestroySession(logs: nat): Program {
    Using(Registry) + Log(logs) + Using(SessionSlots)
  }

  function DestroyAllSessions(logs: seq<nat>): Program {
    if logs == [] then [] else Log(logs[0]) + DestroySession(logs[0]) + DestroyAllSessions(logs[1..])
  }

  function InsertOperations(n: nat): Program {
    if n == 0 then [] else Using(OperationQueue) + InsertOperations(n - 1)
  }

  /** How a call of Send ends: at once, or after some sending. */
  function SendProgram(s: nat, active: bool, logs: nat): Program {
    Guarded(SendLock(s), if active then [Work(SendBuffer(s))] + Log(logs) else [])
  }

  /** Where SendMsg comes to its end: at its first check, at the second one, at the free space, or after sending. */
  datatype SendEnd = NotActive | NotActiveLocked | NoSpace | Buffered(active: bool, logs: nat)

  /** What clients of the library call, from their own threads or from the message handler. */
  datatype ClientCall =
    | SendMsg(session: nat, end: SendEnd)
    | ShutdownNetServer(notice: Delivery)

  function CallProgram(call: ClientCall): Program {
    match call
    case SendMsg(s, NotActive) => Log(1)
    case SendMsg(s, NotActiveLocked) => Guarded(SendLock(s), Log(1))
    case SendMsg(s, NoSpace) => Using(SendBuffer(s))
    case SendMsg(s, Buffered(active, logs)) => Using(SendBuffer(s)) + SendProgram(s, active, logs)
    case ShutdownNetServer(notice) => Deliver(notice, [])
  }

  function CallPrograms(calls: seq<ClientCall>): Program {
    if calls == [] then [] else CallProgram(calls[0]) + CallPrograms(calls[1..])
  }

  /** The handler runs, the loop logs, and the message is freed. */
  function Handle(calls: seq<ClientCall>, logs: nat, logsFreeing: nat): Program {
    CallPrograms(calls) + Log(logs) + AllocateMsg(logsFreeing)
  }

  /** How a call of Recv ends: at once, with an error, with the end of the stream, or with an extraction. */
  datatype RecvEnd = Inactive | Failed | Closed | Extracted(frames: seq<Delivery>)

  function RecvBody(s: nat, end: RecvEnd): Program {
    match end
    case Inactive => []
    case Failed => [Work(RecvBuffer(s))] + Log(1)
    case Closed => [Work(RecvBuffer(s))] + (Using(Registry) + InsertOperations(1))
    case Extracted(frames) => [Work(RecvBuffer(s))] + (ExtractMsg(s, frames) + [Work(RecvBuffer(s))])
  }

  /** The entry points, with what decides between their branches. */
  datatype Path =
    | RecvOperation(session: nat, end: RecvEnd)
    | SendOperation(session: nat, active: bool, logs: nat)
    | Call(call: ClientCall)
    | CloseSession(session: nat, logs: nat, closed: bool, notice: Delivery, logsDestroy: nat)
    | CreateSession(allocates: bool, inserts: bool, logs: nat, notice: Delivery, logsAfter: nat)
    | WorkerRound
    | NetRound(handles: bool, calls: seq<ClientCall>, logs: nat, logsFreeing: nat)
    | DispatcherEvent(logsFirst: nat, logs: nat)
    | RunShutdown(workers: nat, sessions: seq<nat>)

  function ProgramOf(path: Path): Program {
    match path
    case RecvOperation(s, end) => Guarded(RecvLock(s), RecvBody(s, end))
    case SendOperation(s, active, logs) => SendProgram(s, active, logs)
    case Call(call) => CallProgram(call)
    case CloseSession(s, logs, closed, notice, logsDestroy) =>
      Guarded(RecvLock(s), Guarded(SendLock(s), CloseBody(s, logs, closed, notice, logsDestroy)))
    case CreateSession(allocates, inserts, logs, notice, logsAfter) =>
      Using(Registry) + (if allocates then Using(SessionSlots) else [])
      + (if inserts then Using(Registry) else []) + Log(logs) + Deliver(notice, []) + Log(logsAfter)
    case WorkerRound => [AwaitSemaphore] + InsertOperations(1)
    case NetRound(handles, calls, logs, logsFreeing) =>
      [AwaitSemaphore]
      + (Using(MessageQueue) + if handles then Handle(calls, logs, logsFreeing) else Log(logs))
    case DispatcherEvent(logsFirst, logs) => Log(logsFirst) + InsertOperations(1) + Log(logs)
    case RunShutdown(workers, sessions) => InsertOperations(workers) + DestroyAllSessions(sessions)
  }

  /** Both counts are compared before the socket is closed. */
  function CloseBody(s: nat, logs: nat, closed: bool, notice: Delivery, logsDestroy: nat): Program {
    Using(Registry) + ([Work(RecvBuffer(s))] + [Work(SendBuffer(s))]) + Log(logs)
    + if closed then Deliver(notice, []) + DestroySession(logsDestroy) else Log(1)
  }

  lemma {:induction false} UsingLevel(a: Area, r: int, need: set<Lock>)
    requires r < Rank(Guard(a))
    ensures Level(Using(a), r, need)
  {
    WorkLevel(a, Rank(Guard(a)), need + {Guard(a)});
    GuardedLevel(Guard(a), [Work(a)], r, need);
  }

  lemma {:induction false} LogLevel(entries: nat, r: int, need: set<Lock>)
    requires r < 3
    ensures Level(Log(entries), r, need)
    decreases entries
  {
    hide Level, Using;
    NothingLevel(r, need);
    if entries > 0 {
      UsingLevel(LogFile, r, need);
      LogLevel(entries - 1, r, need);
      Then(Using(LogFile), Log(entries - 1), r, need);
    }
  }

  lemma {:induction false} AllocateLevel(logs: nat, r: int, need: set<Lock>)
    requires r < 2
    ensures Level(AllocateMsg(logs), r, need)
  {
    hide Level;
    var inside := need + {MsgPoolLock};
    WorkLevel(MessagePool, 2, inside);
    LogLevel(logs, 2, inside);
    Then([Work(MessagePool)], Log(logs), 2, inside);
    GuardedLevel(MsgPoolLock, [Work(MessagePool)] + Log(logs), r, need);
  }

  lemma {:induction false} DeliverLevel(d: Delivery, fillIn: Program, r: int, need: set<Lock>)
    requires r < 2 && Level(fillIn, r, need)
    ensures Level(Deliver(d, fillIn), r, need)
  {
    hide Level, Using, Log, AllocateMsg;
    AllocateLevel(d.logsInside, r, need);
    UsingLevel(MessageQueue, r, need);
    var log := Log(if d.inserted then 0 else 1);
    LogLevel(if d.inserted then 0 else 1, r, need);
    LogLevel(1, r, need);
    Then(InsertMsg(), log, r, need);
    Then(fillIn, InsertMsg() + log, r, need);
    Then(AllocateMsg(d.logsInside), if d.stored then fillIn + (InsertMsg() + log) else Log(1), r, need);
  }

  lemma {:induction false} ExtractLevel(s: nat, ds: seq<Delivery>, need: set<Lock>)
    requires RecvLock(s) in need
    ensures Level(ExtractMsg(s, ds), 0, need)
    decreases |ds|
  {
    hide Level, Deliver;
    var look := [Work(RecvBuffer(s))];
    WorkLevel(RecvBuffer(s), 0, need);
    NothingLevel(0, need);
    if ds != [] {
      DeliverLevel(ds[0], look, 0, need);
      ExtractLevel(s, ds[1..], need);
      Then(Deliver(ds[0], look), ExtractMsg(s, ds[1..]), 0, need);
    }
    Then(look, if ds == [] then [] else Deliver(ds[0], look) + ExtractMsg(s, ds[1..]), 0, need);
  }

  lemma {:induction false} DestroyLevel(logs: nat, r: int, need: set<Lock>)
    requires r < 2
    ensures Level(DestroySession(logs), r, need)
  {
    hide Level, Using, Log;
    UsingLevel(Registry, r, need);
    LogLevel(logs, r, need);
    UsingLevel(SessionSlots, r, need);
    Then(Using(Registry), Log(logs), r, need);
    Then(Using(Registry) + Log(logs), Using(SessionSlots), r, need);
  }

  lemma {:induction false} DestroyAllLevel(logs: seq<nat>, r: int, need: set<Lock>)
    requires r < 2
    ensures Level(DestroyAllSessions(logs), r, need)
    decreases |logs|
  {
    hide Level, Log, DestroySession;
    if logs == [] {
      NothingLevel(r, need);
    } else {
      LogLevel(logs[0], r, need);
      DestroyLevel(logs[0], r, need);
      DestroyAllLevel(logs[1..], r, need);
      Then(Log(logs[0]), DestroySession(logs[0]), r, need);
      Then(Log(logs[0]) + DestroySession(logs[0]), DestroyAllSessions(logs[1..]), r, need);
    }
  }

  lemma {:induction false} InsertOperationsLevel(n: nat, r: int, need: set<Lock>)
    requires r < 2
    ensures Level(InsertOperations(n), r, need)
  {
    hide Level, Using;
    if n == 0 {
      NothingLevel(r, need);
    } else {
      UsingLevel(OperationQueue, r, need);
      InsertOperationsLevel(n - 1, r, need);
      Then(Using(OperationQueue), InsertOperations(n - 1), r, need);
    }
  }

  lemma {:induction false} CloseBodyLevel(s: nat, logs: nat, closed: bool, notice: Delivery, logsDestroy: nat,
                                          need: set<Lock>)
    requires RecvLock(s) in need && SendLock(s) in need
    ensures Level(CloseBody(s, logs, closed, notice, logsDestroy), 1, need)
  {
    hide Level, Using, Log, Deliver, DestroySession;
    UsingLevel(Registry, 1, need);
    LogLevel(logs, 1, need);
    LogLevel(1, 1, need);
    var compare := [Work(RecvBuffer(s))] + [Work(SendBuffer(s))];
    WorkLevel(RecvBuffer(s), 1, need);
    WorkLevel(SendBuffer(s), 1, need);
    Then([Work(RecvBuffer(s))], [Work(SendBuffer(s))], 1, need);
    Then(Using(Registry), compare, 1, need);
    Then(Using(Registry) + compare, Log(logs), 1, need);
    NothingLevel(1, need);
    DeliverLevel(notice, [], 1, need);
    DestroyLevel(logsDestroy, 1, need);
    Then(Deliver(notice, []), DestroySession(logsDestroy), 1, need);
    Then(Using(Registry) + compare + Log(logs),
         if closed then Deliver(notice, []) + DestroySession(logsDestroy) else Log(1), 1, need);
  }

  lemma {:induction false} RecvBodyLevel(s: nat, end: RecvEnd, need: set<Lock>)
    requires RecvLock(s) in need
    ensures Level(RecvBody(s, end), 0, need)
  {
    hide Level, Using, Log, InsertOperations, ExtractMsg;
    var look := [Work(RecvBuffer(s))];
    WorkLevel(RecvBuffer(s), 0, need);
    match end
    case Inactive => NothingLevel(0, need);
    case Failed =>
      LogLevel(1, 0, need);
      Then(look, Log(1), 0, need);
    case Closed =>
      UsingLevel(Registry, 0, need);
      InsertOperationsLevel(1, 0, need);
      Then(Using(Registry), InsertOperations(1), 0, need);
      Then(look, Using(Registry) + InsertOperations(1), 0, need);
    case Extracted(frames) =>
      ExtractLevel(s, frames, need);
      Then(ExtractMsg(s, frames), look, 0, need);
      Then(look, ExtractMsg(s, frames) + look, 0, need);
  }

  lemma {:induction false} SendLevel(s: nat, active: bool, logs: nat)
    ensures Level(SendProgram(s, active, logs), -1, {})
  {
    hide Level, Log;
    var inside := {} + {SendLock(s)};
    var work := [Work(SendBuffer(s))];
    WorkLevel(SendBuffer(s), 1, inside);
    LogLevel(logs, 1, inside);
    NothingLevel(1, inside);
    Then(work, Log(logs), 1, inside);
    GuardedLevel(SendLock(s), if active then work + Log(logs) else [], -1, {});
  }

  lemma {:induction false} CallLevel(call: ClientCall)
    ensures Level(CallProgram(call), -1, {})
  {
    hide Level, Using, Log, Deliver, SendProgram;
    LogLevel(1, -1, {});
    match call
    case SendMsg(s, NotActive) =>
    case SendMsg(s, NotActiveLocked) =>
      LogLevel(1, 1, {} + {SendLock(s)});
      GuardedLevel(SendLock(s), Log(1), -1, {});
    case SendMsg(s, NoSpace) => UsingLevel(SendBuffer(s), -1, {});
    case SendMsg(s, Buffered(active, logs)) =>
      UsingLevel(SendBuffer(s), -1, {});
      SendLevel(s, active, logs);
      Then(Using(SendBuffer(s)), SendProgram(s, active, logs), -1, {});
    case ShutdownNetServer(notice) =>
      NothingLevel(-1, {});
      DeliverLevel(notice, [], -1, {});
  }

  lemma {:induction false} CallsLevel(calls: seq<ClientCall>)
    ensures Level(CallPrograms(calls), -1, {})
    decreases |calls|
  {
    hide Level, CallProgram;
    if calls == [] {
      NothingLevel(-1, {});
    } else {
      CallLevel(calls[0]);
      CallsLevel(calls[1..]);
      Then(CallProgram(calls[0]), CallPrograms(calls[1..]), -1, {});
    }
  }

  lemma {:induction false} HandleLevel(calls: seq<ClientCall>, logs: nat, logsFreeing: nat)
    ensures Level(Handle(calls, logs, logsFreeing), -1, {})
  {
    hide Level, CallPrograms, Log, AllocateMsg;
    CallsLevel(calls);
    LogLevel(logs, -1, {});
    AllocateLevel(logsFreeing, -1, {});
    Then(CallPrograms(calls), Log(logs), -1, {});
    Then(CallPrograms(calls) + Log(logs), AllocateMsg(logsFreeing), -1, {});
  }

  lemma {:induction false} CreateLevel(path: Path)
    requires path.CreateSession?
    ensures Level(ProgramOf(path), -1, {})
  {
    hide Level, Using, Log, Deliver;
    var id, slot, entry := Using(Registry), if path.allocates then Using(SessionSlots) else [],
                           if path.inserts then Using(Registry) else [];
    NothingLevel(-1, {});
    UsingLevel(Registry, -1, {});
    UsingLevel(SessionSlots, -1, {});
    LogLevel(path.logs, -1, {});
    DeliverLevel(path.notice, [], -1, {});
    Then(id, slot, -1, {});
    Then(id + slot, entry, -1, {});
    Then(id + slot + entry, Log(path.logs), -1, {});
    Then(id + slot + entry + Log(path.logs), Deliver(path.notice, []), -1, {});
    LogLevel(path.logsAfter, -1, {});
    Then(id + slot + entry + Log(path.logs) + Deliver(path.notice, []), Log(path.logsAfter), -1, {});
  }

  lemma {:induction false} AwaitLevel()
    ensures Level([AwaitSemaphore], -1, {})
  {
    forall held: set<Lock> | forall h | h in held :: Rank(h) <= -1
      ensures Ranked([AwaitSemaphore], held, held)
    {
      forall h
        ensures h !in held
      {
        assert h in held ==> Rank(h) <= -1;
      }
      assert held == {};
      assert [AwaitSemaphore][1..] == [];
    }
  }

  lemma {:induction false} NetLevel(path: Path)
    requires path.NetRound?
    ensures Level(ProgramOf(path), -1, {})
  {
    hide Level, Using, Log, Handle;
    var rest := if path.handles then Handle(path.calls, path.logs, path.logsFreeing) else Log(path.logs);
    AwaitLevel();
    UsingLevel(MessageQueue, -1, {});
    HandleLevel(path.calls, path.logs, path.logsFreeing);
    LogLevel(path.logs, -1, {});
    Then(Using(MessageQueue), rest, -1, {});
    Then([AwaitSemaphore], Using(MessageQueue) + rest, -1, {});
  }

  /**
   * Every entry point takes its locks in rising rank, gives them back, and works on what the threads share only
   * under the lock that protects it, whatever its branches do.
   */
  lemma {:induction false} PathsAreRanked(path: Path)
    ensures Ranked(ProgramOf(path), {}, {})
  {
    PathLevel(path);
    hide ProgramOf;
  }

  lemma {:induction false} PathLevel(path: Path)
    ensures Level(ProgramOf(path), -1, {})
  {
    hide Level, Log, InsertOperations, RecvBody, CloseBody, SendProgram, CallProgram, DestroyAllSessions;
    match path
    case RecvOperation(s, end) =>
      RecvBodyLevel(s, end, {} + {RecvLock(s)});
      GuardedLevel(RecvLock(s), RecvBody(s, end), -1, {});
    case SendOperation(s, active, logs) => SendLevel(s, active, logs);
    case Call(call) => CallLevel(call);
    case CloseSession(s, logs, closed, notice, logsDestroy) =>
      var outer := {} + {RecvLock(s)};
      CloseBodyLevel(s, logs, closed, notice, logsDestroy, outer + {SendLock(s)});
      GuardedLevel(SendLock(s), CloseBody(s, logs, closed, notice, logsDestroy), 0, outer);
      GuardedLevel(RecvLock(s), Guarded(SendLock(s), CloseBody(s, logs, closed, notice, logsDestroy)), -1, {});
    case CreateSession(_, _, _, _, _) => CreateLevel(path);
    case WorkerRound =>
      AwaitLevel();
      InsertOperationsLevel(1, -1, {});
      Then([AwaitSemaphore], InsertOperations(1), -1, {});
    case NetRound(_, _, _, _) => NetLevel(path);
    case DispatcherEvent(logsFirst, logs) =>
      LogLevel(logsFirst, -1, {});
      InsertOperationsLevel(1, -1, {});
      LogLevel(logs, -1, {});
      Then(Log(logsFirst), InsertOperations(1), -1, {});
      Then(Log(logsFirst) + InsertOperations(1), Log(logs), -1, {});
    case RunShutdown(workers, sessions) =>
      InsertOperationsLevel(workers, -1, {});
      DestroyAllLevel(sessions, -1, {});
      Then(InsertOperations(workers), DestroyAllSessions(sessions), -1, {});
  }

  // ------------------------------------------------------------------- what is worked on

  function Times(p: Program, a: Area): nat {
    multiset(p)[Work(a)]
  }

  function StoredOf(frames: seq<Delivery>): nat {
    if frames == [] then 0 else (if frames[0].stored then 1 else 0) + StoredOf(frames[1..])
  }

  lemma {:induction false} TimesOf(p: Program, q: Program, l: Lock, a: Area)
    ensures Times(p + q, a) == Times(p, a) + Times(q, a)
    ensures Times(Guarded(l, p), a) == Times(p, a)
    ensures Times([], a) == 0 && Times([AwaitSemaphore], a) == 0
  {
  }

  lemma {:induction false} TimesUsing(b: Area, a: Area)
    ensures Times([Work(b)], a) == Times(Using(b), a) == if a == b then 1 else 0
  {
    TimesOf([Work(b)], [], Guard(b), a);
  }

  lemma {:induction false} TimesLog(entries: nat, a: Area)
    requires a != LogFile
    ensures Times(Log(entries), a) == 0
    decreases entries
  {
    hide Times, Using;
    TimesOf([], [], LoggerLock, a);
    if entries > 0 {
      TimesUsing(LogFile, a);
      TimesLog(entries - 1, a);
      TimesOf(Using(LogFile), Log(entries - 1), LoggerLock, a);
    }
  }

  lemma {:induction false} TimesAllocated(logs: nat, a: Area)
    requires a != LogFile
    ensures Times(AllocateMsg(logs), a) == if a == MessagePool then 1 else 0
  {
    TimesLog(logs, a);
    TimesUsing(MessagePool, a);
    hide Times, Using, Log, Guarded;
    TimesOf([Work(MessagePool)], Log(logs), MsgPoolLock, a);
    TimesOf([Work(MessagePool)] + Log(logs), [], MsgPoolLock, a);
  }

  lemma {:induction false} TimesDelivered(d: Delivery, fillIn: Program, a: Area)
    requires a != LogFile
    ensures Times(Deliver(d, fillIn), a)
        == (if a == MessagePool then 1 else 0)
           + if d.stored then Times(fillIn, a) + (if a == MessageQueue then 1 else 0) else 0
  {
    TimesAllocated(d.logsInside, a);
    TimesLog(1, a);
    TimesLog(if d.inserted then 0 else 1, a);
    TimesUsing(MessageQueue, a);
    hide Times, Using, Log, AllocateMsg;
    var insert, log := InsertMsg(), Log(if d.inserted then 0 else 1);
    hide InsertMsg;
    TimesOf(insert, log, MsgPoolLock, a);
    TimesOf(fillIn, insert + log, MsgPoolLock, a);
    TimesOf(AllocateMsg(d.logsInside), if d.stored then fillIn + (insert + log) else Log(1), MsgPoolLock, a);
  }

  lemma {:induction false} TimesExtracted(s: nat, ds: seq<Delivery>, a: Area)
    requires a != LogFile
    ensures Times(ExtractMsg(s, ds), a)
        == (if a == RecvBuffer(s) then 1 + |ds| + StoredOf(ds) else 0) + (if a == MessagePool then |ds| else 0)
           + if a == MessageQueue then StoredOf(ds) else 0
    decreases |ds|
  {
    var look := [Work(RecvBuffer(s))];
    TimesUsing(RecvBuffer(s), a);
    hide Times, Using, Deliver, Guarded;
    TimesOf(look, [], LoggerLock, a);
    if ds != [] {
      TimesDelivered(ds[0], look, a);
      TimesExtracted(s, ds[1..], a);
      TimesOf(Deliver(ds[0], look), ExtractMsg(s, ds[1..]), LoggerLock, a);
      TimesOf(look, Deliver(ds[0], look) + ExtractMsg(s, ds[1..]), LoggerLock, a);
    }
  }

  lemma {:induction false} TimesOperations(n: nat, a: Area)
    ensures Times(InsertOperations(n), a) == if a == OperationQueue then n else 0
  {
    hide Times, Using;
    TimesOf([], [], LoggerLock, a);
    if n > 0 {
      TimesUsing(OperationQueue, a);
      TimesOperations(n - 1, a);
      TimesOf(Using(OperationQueue), InsertOperations(n - 1), LoggerLock, a);
    }
  }

  /**
   * What the reading paths work on: the session's own receive buffer and no other; and, when they extract, the pool
   * once for each frame and the queue once for each message that got its memory.
   */
  lemma {:induction false} RecvWorks(s: nat, end: RecvEnd, a: Area)
    requires a != LogFile
    ensures var n := Times(ProgramOf(RecvOperation(s, end)), a);
            match a
            case RecvBuffer(x) => n > 0 <==> x == s && !end.Inactive?
            case MessagePool => n == if end.Extracted? then |end.frames| else 0
            case MessageQueue => n == if end.Extracted? then StoredOf(end.frames) else 0
            case Registry => n == if end.Closed? then 1 else 0
            case OperationQueue => n == if end.Closed? then 1 else 0
            case _ => n == 0
  {
    var look := [Work(RecvBuffer(s))];
    TimesUsing(RecvBuffer(s), a);
    hide Times, Using, Log, InsertOperations, ExtractMsg, Guarded;
    TimesOf(RecvBody(s, end), [], RecvLock(s), a);
    match end
    case Inactive =>
    case Failed =>
      TimesLog(1, a);
      TimesOf(look, Log(1), RecvLock(s), a);
    case Closed =>
      TimesUsing(Registry, a);
      TimesOperations(1, a);
      TimesOf(Using(Registry), InsertOperations(1), RecvLock(s), a);
      TimesOf(look, Using(Registry) + InsertOperations(1), RecvLock(s), a);
    case Extracted(frames) =>
      TimesExtracted(s, frames, a);
      TimesOf(ExtractMsg(s, frames), look, RecvLock(s), a);
      TimesOf(look, ExtractMsg(s, frames) + look, RecvLock(s), a);
  }

  lemma {:induction false} TimesOfFour(p: Program, q: Program, r: Program, x: Program, a: Area)
    ensures Times(p + q + r + x, a) == Times(p, a) + Times(q, a) + Times(r, a) + Times(x, a)
  {
    hide Times;
    TimesOf(p, q, LoggerLock, a);
    TimesOf(p + q, r, LoggerLock, a);
    TimesOf(p + q + r, x, LoggerLock, a);
  }

  /** Closing a session compares both of its counts and clears its status, whatever else it does. */
  lemma {:induction false} CloseWorks(s: nat, logs: nat, closed: bool, notice: Delivery, logsDestroy: nat, a: Area)
    requires a == RecvBuffer(s) || a == SendBuffer(s) || a == Registry
    ensures Times(ProgramOf(CloseSession(s, logs, closed, notice, logsDestroy)), a) > 0
  {
    hide *;
    CloseIs(s, logs, closed, notice, logsDestroy);
    var body := CloseBody(s, logs, closed, notice, logsDestroy);
    TimesCompared(s, a);
    TimesUsing(Registry, a);
    TimesOfFour(Using(Registry), [Work(RecvBuffer(s))] + [Work(SendBuffer(s))], Log(logs),
                if closed then Deliver(notice, []) + DestroySession(logsDestroy) else Log(1), a);
    TimesOf(body, [], SendLock(s), a);
    TimesOf(Guarded(SendLock(s), body), [], RecvLock(s), a);
  }

  lemma {:induction false} TimesCompared(s: nat, a: Area)
    ensures a == RecvBuffer(s) || a == SendBuffer(s) ==>
              Times([Work(RecvBuffer(s))] + [Work(SendBuffer(s))], a) > 0
  {
    TimesUsing(RecvBuffer(s), a);
    TimesUsing(SendBuffer(s), a);
    hide Times, Using;
    TimesOf([Work(RecvBuffer(s))], [Work(SendBuffer(s))], SendLock(s), a);
  }

  lemma {:induction false} CloseIs(s: nat, logs: nat, closed: bool, notice: Delivery, logsDestroy: nat)
    ensures CloseBody(s, logs, closed, notice, logsDestroy)
        == Using(Registry) + ([Work(RecvBuffer(s))] + [Work(SendBuffer(s))]) + Log(logs)
           + if closed then Deliver(notice, []) + DestroySession(logsDestroy) else Log(1)
    ensures ProgramOf(CloseSession(s, logs, closed, notice, logsDestroy))
        == Guarded(RecvLock(s), Guarded(SendLock(s), CloseBody(s, logs, closed, notice, logsDestroy)))
  {
    hide Using, Log, Deliver, DestroySession, Guarded;
  }

  lemma {:induction false} TimesSent(s: nat, active: bool, logs: nat, a: Area)
    requires a != LogFile
    ensures Times(SendProgram(s, active, logs), a) == if a == SendBuffer(s) && active then 1 else 0
  {
    TimesUsing(SendBuffer(s), a);
    TimesLog(logs, a);
    hide Times, Using, Log, Guarded;
    TimesOf([Work(SendBuffer(s))], Log(logs), SendLock(s), a);
    TimesOf(if active then [Work(SendBuffer(s))] + Log(logs) else [], [], SendLock(s), a);
  }

  /** What the sending paths work on: the session's own send buffer, once to fill it and once to drain it. */
  lemma {:induction false} SendWorks(s: nat, end: SendEnd, a: Area)
    requires a != LogFile
    ensures Times(ProgramOf(Call(SendMsg(s, end))), a)
        == if a == SendBuffer(s) && (end.NoSpace? || end.Buffered?) then if end.Buffered? && end.active then 2 else 1
           else 0
  {
    hide *;
    TimesUsing(SendBuffer(s), a);
    TimesLog(1, a);
    TimesOf(Log(1), [], SendLock(s), a);
    ProgramOfSend(s, end);
    if end.Buffered? {
      TimesSent(s, end.active, end.logs, a);
      TimesOf(Using(SendBuffer(s)), SendProgram(s, end.active, end.logs), SendLock(s), a);
    }
  }

  lemma {:induction false} ProgramOfSend(s: nat, end: SendEnd)
    ensures ProgramOf(Call(SendMsg(s, end)))
        == if end.NotActive? then Log(1) else if end.NotActiveLocked? then Guarded(SendLock(s), Log(1))
           else if end.NoSpace? then Using(SendBuffer(s))
           else Using(SendBuffer(s)) + SendProgram(s, end.active, end.logs)
  {
    hide Using, Log, Guarded, SendProgram;
  }

  // ------------------------------------------------------------------ the mutex guard

  /** What a guard's owner may call between its construction and its destruction. */
  datatype GuardCall = Lock | UnLock

  /** What the calls, and then the destructor, do to the mutex. */
  function GuardTrace(l: Lock, owner: bool, calls: seq<GuardCall>): Program
    decreases |calls|
  {
    if calls == [] then ReleaseIf(l, owner)
    else
      match calls[0]
      case Lock => [Acquire(l)] + GuardTrace(l, true, calls[1..])
      case UnLock => ReleaseIf(l, owner) + GuardTrace(l, false, calls[1..])
  }

  function ReleaseIf(l: Lock, owner: bool): Program {
    if owner then [Release(l)] else []
  }

  /** Lock is called only after UnLock. */
  predicate LocksOnlyWhenFree(owner: bool, calls: seq<GuardCall>)
    decreases |calls|
  {
    calls == [] || (!(owner && calls[0].Lock?) && LocksOnlyWhenFree(calls[0].Lock?, calls[1..]))
  }

  /**
   * However often UnLock is called, a guard never gives up a lock it does not hold and never keeps one past its
   * destruction; it goes wrong exactly when Lock is called on a guard that already owns its mutex.
   */
  lemma {:induction false} GuardIsBalancedIff(l: Lock, owner: bool, calls: seq<GuardCall>)
    ensures Ranked(GuardTrace(l, owner, calls), if owner then {l} else {}, {}) <==> LocksOnlyWhenFree(owner, calls)
    decreases |calls|
  {
    var held := if owner then {l} else {};
    assert held - {l} == {} && {} + {l} == {l};
    if calls == [] {
      Ahead(Release(l), []);
    } else {
      GuardIsBalancedIff(l, calls[0].Lock?, calls[1..]);
      var tail := GuardTrace(l, calls[0].Lock?, calls[1..]);
      Ahead(Acquire(l), tail);
      Ahead(Release(l), tail);
      assert [] + tail == tail;
    }
  }

  lemma {:induction false} Ahead(a: Action, tail: Program)
    ensures ([a] + tail)[0] == a && ([a] + tail)[1..] == tail && [a] + [] == [a]
  {
  }

  class Mutex {
    const lock: Lock
    ghost var trace: Program

    constructor (lock: Lock)
      ensures this.lock == lock && trace == []
    {
      this.lock := lock;
      trace := [];
    }

    method Lock()
      modifies this
      ensures trace == old(trace) + [Acquire(lock)]
    {
      trace := trace + [Acquire(lock)];
    }

    method UnLock()
      modifies this
      ensures trace == old(trace) + [Release(lock)]
    {
      trace := trace + [Release(lock)];
    }
  }

  class MutexGuard {
    const mutex: Mutex
    var owner: bool

    constructor (mutex: Mutex)
      modifies mutex
      ensures this.mutex == mutex && owner
      ensures mutex.trace == old(mutex.trace) + [Acquire(mutex.lock)]
    {
      this.mutex := mutex;
      owner := false;
      new;
      Lock();
    }

    method Lock()
      modifies this, mutex
      ensures owner
      ensures mutex.trace == old(mutex.trace) + [Acquire(mutex.lock)]
    {
      mutex.Lock();
      owner := true;
    }

    /** Also what the destructor does. */
    method UnLock()
      modifies this, mutex
      ensures !owner
      ensures mutex.trace == old(mutex.trace) + ReleaseIf(mutex.lock, old(owner))
    {
      if owner {
        owner := false;
        mutex.UnLock();
      }
    }
  }
}
