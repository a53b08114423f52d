// The queue of asynchronous operations, the worker threads that serve it, and their shutdown, as a
// system of interleaved atomic steps with any number of producers and workers.
module Workers {
  import opened Containers

  datatype OperationType = Accept | Recv | Send | Close | Error | Shutdown

  /** An entry of the queue; the shutdown entries carry a null pointer instead of a target. */
  datatype Operation = Operation(target: Option<nat>, kind: OperationType)

  const STOP_TOKEN := Operation(None, Shutdown)

  /** AsyncOperationQueue: a ring queue and the semaphore that is posted outside its lock. */
  class AsyncOperationQueue {
    const operations: Queue<Operation>
    var tokens: nat

    ghost function Repr(): set<object> {
      {this} + operations.Repr()
    }

    ghost predicate Valid()
      reads Repr()
    {
      operations.Valid() && this !in operations.Repr()
    }

    constructor (size: nat)
      ensures Valid() && fresh(operations.Repr())
      ensures operations.Contents() == [] && operations.list.Length == size && tokens == 0
    {
      operations := new Queue<Operation>(size);
      tokens := 0;
    }

    method InsertAsyncOperation(operation: Operation) returns (ok: bool)
      requires Valid()
      modifies Repr()
      ensures Valid()
      ensures ok == (|old(operations.Contents())| < operations.list.Length)
      ensures operations.Contents() == Pushed(old(operations.Contents()), operation, operations.list.Length)
      ensures tokens == old(tokens) + 1
    {
      ok := operations.PushBack(operation);
      tokens := tokens + 1;
    }

    /** From an empty queue comes an entry without defined contents. */
    method RemoveAsyncOperation() returns (operation: Option<Operation>)
      requires Valid()
      modifies Repr()
      ensures Valid()
      ensures operation == if old(operations.Contents()) == [] then None else Some(old(operations.Contents())[0])
      ensures operations.Contents() == if operation == None then [] else old(operations.Contents())[1..]
      ensures tokens == old(tokens)
    {
      operation := operations.Front();
      if operation == None {
        return;
      }
      operations.PopFront();
    }
  }

  // ---------------------------------------------------------------------- the system

  datatype Config = Config(workers: nat, capacity: nat)

  /** Where a worker thread stands in WorkerThread::Run. */
  datatype Worker =
    | AtCheck
    | AtWait
    | AtRemove
    | Deciding(operation: Option<Operation>)
    | Completing(current: Operation)
    | CompletePosting      // Complete has inserted an operation of its own and has to post it
    | Exited
    | Crashed              // Complete was called through a pointer that points nowhere

  /** Where the thread in TCPStream::Shutdown stands. */
  datatype Controller = Idle | Clearing(flags: nat) | Feeding(posted: nat, pending: bool)

  datatype State = State(
    queue: seq<Operation>,
    tokens: nat,
    workers: seq<Worker>,
    runnable: seq<bool>,
    producers: set<nat>,   // threads that have inserted and not posted yet
    controller: Controller,
    accepted: seq<Operation>,
    dequeued: seq<Operation>,
    completed: seq<Operation>,  // those whose call of Complete has come to its end, or to its own insertion
    failedPushes: nat,
    emptyRemoves: nat,
    used: seq<nat>)        // tokens a worker has taken since the last flag was cleared

  datatype Step =
    | Insert(t: nat, operation: Operation)
    | InsertPost(t: nat)
    | Check(w: nat)
    | Take(w: nat)
    | Fetch(w: nat)
    | Decide(w: nat)
    | CompleteInsert(w: nat, operation: Operation)
    | CompletePost(w: nat)
    | CompleteEnd(w: nat)
    | BeginShutdown
    | ClearFlag
    | BeginFeeding
    | FeedInsert
    | FeedPost

  predicate WorkerStep(step: Step) {
    step.Check? || step.Take? || step.Fetch? || step.Decide? || step.CompleteInsert? || step.CompletePost?
        || step.CompleteEnd?
  }

  function Start(cfg: Config): State {
    State([], 0, seq(cfg.workers, _ => AtCheck), seq(cfg.workers, _ => true), {}, Idle, [], [], [], 0, 0,
        seq(cfg.workers, _ => 0))
  }

  /** The operations other threads insert have a target; only Shutdown inserts stop tokens. */
  predicate Ordinary(operation: Operation) {
    operation.target.Some? && operation.kind != Shutdown
  }

  predicate At(s: State, w: nat, pc: Worker) {
    w < |s.workers| && s.workers[w] == pc
  }

  /** Shutdown has cleared the last flag. */
  predicate AllDown(cfg: Config, s: State) {
    s.controller.Feeding? || s.controller == Clearing(cfg.workers)
  }

  predicate Enabled(cfg: Config, s: State, step: Step) {
    match step
    case Insert(t, op) => t !in s.producers && Ordinary(op)
    case InsertPost(t) => t in s.producers
    case Check(w) => At(s, w, AtCheck) && w < |s.runnable|
    case Take(w) => At(s, w, AtWait) && s.tokens > 0 && w < |s.used|
    case Fetch(w) => At(s, w, AtRemove)
    case Decide(w) => w < |s.workers| && s.workers[w].Deciding? && w < |s.runnable|
    case CompleteInsert(w, op) => w < |s.workers| && s.workers[w].Completing? && Ordinary(op)
    case CompletePost(w) => At(s, w, CompletePosting)
    case CompleteEnd(w) => w < |s.workers| && s.workers[w].Completing?
    case BeginShutdown => s.controller == Idle
    case ClearFlag => s.controller.Clearing? && s.controller.flags < |s.runnable|
    case BeginFeeding => s.controller == Clearing(cfg.workers)
    case FeedInsert => s.controller.Feeding? && !s.controller.pending && s.controller.posted < cfg.workers
    case FeedPost => s.controller.Feeding? && s.controller.pending
  }

  function PushOperation(cfg: Config, s: State, op: Operation): State {
    if |s.queue| < cfg.capacity then
      s.(queue := Pushed(s.queue, op, cfg.capacity), accepted := s.accepted + [op])
    else s.(failedPushes := s.failedPushes + 1)
  }

  function SetWorker(s: State, w: nat, pc: Worker): State
    requires w < |s.workers|
  {
    s.(workers := s.workers[w := pc])
  }

  function Decision(runnable: bool, operation: Option<Operation>): Worker {
    if operation.Some? && !runnable && operation.value.kind == Shutdown then Exited
    else if operation.Some? && operation.value.target.Some? then Completing(operation.value)
    else Crashed
  }

  function Next(cfg: Config, s: State, step: Step): State
    requires Enabled(cfg, s, step)
  {
    match step
    case Insert(t, op) => PushOperation(cfg, s, op).(producers := s.producers + {t})
    case InsertPost(t) => s.(producers := s.producers - {t}, tokens := s.tokens + 1)
    case Check(w) => SetWorker(s, w, if s.runnable[w] then AtWait else Exited)
    case Take(w) =>
      SetWorker(s, w, AtRemove)
        .(tokens := s.tokens - 1, used := if AllDown(cfg, s) then s.used[w := s.used[w] + 1] else s.used)
    case Fetch(w) =>
      if s.queue == [] then SetWorker(s, w, Deciding(None)).(emptyRemoves := s.emptyRemoves + 1)
      else SetWorker(s, w, Deciding(Some(s.queue[0]))).(queue := s.queue[1..], dequeued := s.dequeued + [s.queue[0]])
    case Decide(w) => SetWorker(s, w, Decision(s.runnable[w], s.workers[w].operation))
    case CompleteInsert(w, op) =>
      PushOperation(cfg, SetWorker(s, w, CompletePosting), op)
        .(completed := s.completed + [s.workers[w].current])
    case CompletePost(w) => SetWorker(s, w, AtCheck).(tokens := s.tokens + 1)
    case CompleteEnd(w) => SetWorker(s, w, AtCheck).(completed := s.completed + [s.workers[w].current])
    case BeginShutdown => s.(controller := Clearing(0))
    case ClearFlag =>
      s.(runnable := s.runnable[s.controller.flags := false], controller := Clearing(s.controller.flags + 1))
    case BeginFeeding => s.(controller := Feeding(0, false))
    case FeedInsert => PushOperation(cfg, s, STOP_TOKEN).(controller := Feeding(s.controller.posted, true))
    case FeedPost => s.(controller := Feeding(s.controller.posted + 1, false), tokens := s.tokens + 1)
  }

  ghost predicate Runs(cfg: Config, s: State, steps: seq<Step>, t: State)
    decreases |steps|
  {
    if steps == [] then t == s
    else Enabled(cfg, s, steps[0]) && Runs(cfg, Next(cfg, s, steps[0]), steps[1..], t)
  }

  // ------------------------------------------------------------- counting the workers

  function One(b: bool): nat {
    if b then 1 else 0
  }

  function Waiting(ws: seq<Worker>): (n: nat)
    ensures n <= |ws|
  {
    if ws == [] then 0 else One(ws[0] == AtWait) + Waiting(ws[1..])
  }

  function Fetching(ws: seq<Worker>): nat {
    if ws == [] then 0 else One(ws[0] == AtRemove) + Fetching(ws[1..])
  }

  function PostingWorkers(ws: seq<Worker>): nat {
    if ws == [] then 0 else One(ws[0] == CompletePosting) + PostingWorkers(ws[1..])
  }

  /** Has come back from an empty queue: it calls Complete through an undefined pointer, or already has. */
  predicate Astray(w: Worker) {
    w == Crashed || w == Deciding(None)
  }

  function AstrayWorkers(ws: seq<Worker>): nat {
    if ws == [] then 0 else One(Astray(ws[0])) + AstrayWorkers(ws[1..])
  }

  /** The worker has taken the operation out of the queue and is about to call Complete for it, or inside the call. */
  predicate Holds(w: Worker, op: Operation) {
    w == Deciding(Some(op)) || w == Completing(op)
  }

  /** How many workers hold the operation. */
  function InHand(ws: seq<Worker>, op: Operation): nat {
    if ws == [] then 0 else One(Holds(ws[0], op)) + InHand(ws[1..], op)
  }

  lemma {:induction false} InHandChange(ws: seq<Worker>, w: nat, pc: Worker, op: Operation)
    requires w < |ws|
    ensures InHand(ws[w := pc], op) == InHand(ws, op) - One(Holds(ws[w], op)) + One(Holds(pc, op))
    decreases |ws|
  {
    if w > 0 {
      InHandChange(ws[1..], w - 1, pc, op);
      assert ws[w := pc][1..] == ws[1..][w - 1 := pc];
    } else {
      assert ws[w := pc][1..] == ws[1..];
    }
  }

  lemma {:induction false} FreshHands(n: nat, op: Operation)
    ensures InHand(seq(n, _ => AtCheck), op) == 0
  {
    if n > 0 {
      FreshHands(n - 1, op);
      assert seq(n, _ => AtCheck)[1..] == seq(n - 1, _ => AtCheck);
    }
  }

  /** How far a worker is from the end once its flag has been cleared. */
  function Rank(w: Worker): nat {
    match w
    case AtWait => 6
    case AtRemove => 5
    case Deciding(_) => 4
    case Completing(_) => 3
    case CompletePosting => 2
    case AtCheck => 1
    case _ => 0
  }

  function TotalRank(ws: seq<Worker>): (n: nat)
    ensures n <= 6 * |ws|
  {
    if ws == [] then 0 else Rank(ws[0]) + TotalRank(ws[1..])
  }

  lemma {:induction false} CountsChange(ws: seq<Worker>, w: nat, pc: Worker)
    requires w < |ws|
    ensures Waiting(ws[w := pc]) == Waiting(ws) - One(ws[w] == AtWait) + One(pc == AtWait)
    ensures Fetching(ws[w := pc]) == Fetching(ws) - One(ws[w] == AtRemove) + One(pc == AtRemove)
    ensures PostingWorkers(ws[w := pc])
        == PostingWorkers(ws) - One(ws[w] == CompletePosting) + One(pc == CompletePosting)
    ensures AstrayWorkers(ws[w := pc]) == AstrayWorkers(ws) - One(Astray(ws[w])) + One(Astray(pc))
    ensures TotalRank(ws[w := pc]) == TotalRank(ws) - Rank(ws[w]) + Rank(pc)
    decreases |ws|
  {
    if w > 0 {
      CountsChange(ws[1..], w - 1, pc);
      assert ws[w := pc][1..] == ws[1..][w - 1 := pc];
    } else {
      assert ws[w := pc][1..] == ws[1..];
    }
  }

  lemma {:induction false} FreshCounts(n: nat)
    ensures Waiting(seq(n, _ => AtCheck)) == Fetching(seq(n, _ => AtCheck)) == PostingWorkers(seq(n, _ => AtCheck)) == 0
    ensures AstrayWorkers(seq(n, _ => AtCheck)) == 0
  {
    if n > 0 {
      FreshCounts(n - 1);
      assert seq(n, _ => AtCheck)[1..] == seq(n - 1, _ => AtCheck);
    }
  }

  lemma {:induction false} SomeWaiting(ws: seq<Worker>, w: nat)
    requires w < |ws| && ws[w] == AtWait
    ensures Waiting(ws) > 0
    decreases |ws|
  {
    if w > 0 {
      SomeWaiting(ws[1..], w - 1);
    }
  }

  // --------------------------------------------------------------------- invariants

  /** Tokens, posts to come and looks to come, against operations, refused pushes and empty looks. */
  ghost predicate Accounted(s: State) {
    && s.tokens + |s.producers| + PostingWorkers(s.workers) + One(s.controller.Feeding? && s.controller.pending)
        + Fetching(s.workers)
       == |s.queue| + s.failedPushes - s.emptyRemoves
    && s.emptyRemoves <= s.failedPushes
  }

  /** First in, first out, across all workers. */
  ghost predicate InOrder(s: State) {
    s.dequeued + s.queue == s.accepted
  }

  predicate Sound(s: State, op: Operation) {
    Ordinary(op) || (op == STOP_TOKEN && s.controller.Feeding?)
  }

  /** Stop tokens exist only once every flag is down; a pointer to nowhere comes only from an empty look. */
  ghost predicate Safe(cfg: Config, s: State) {
    && |s.workers| == |s.runnable| == |s.used| == cfg.workers
    && (s.controller.Clearing? ==>
          s.controller.flags <= cfg.workers && forall i | 0 <= i < s.controller.flags :: !s.runnable[i])
    && (s.controller.Feeding? ==>
          s.controller.posted <= cfg.workers && forall i | 0 <= i < cfg.workers :: !s.runnable[i])
    && (s.controller.Feeding? && s.controller.pending ==> s.controller.posted < cfg.workers)
    && (forall i | 0 <= i < |s.queue| :: Sound(s, s.queue[i]))
    && (forall w | 0 <= w < cfg.workers && s.workers[w].Deciding? && s.workers[w].operation.Some? ::
          Sound(s, s.workers[w].operation.value))
    && (forall w | 0 <= w < cfg.workers
        && (s.workers[w] == Crashed || s.workers[w] == Deciding(None)) :: s.emptyRemoves > 0)
  }

  /** The tokens in the semaphore and those still to be fed suffice for all who wait. */
  ghost predicate Supplied(cfg: Config, s: State) {
    s.controller.Feeding? ==> s.tokens + (cfg.workers - s.controller.posted) >= Waiting(s.workers)
  }

  /** Nobody takes two tokens once all flags are down. */
  ghost predicate Fresh(cfg: Config, s: State) {
    && (AllDown(cfg, s) ==> forall w | 0 <= w < |s.workers|
        && w < |s.used| :: s.used[w] <= if s.workers[w] == AtWait then 0 else 1)
    && (!AllDown(cfg, s) ==> forall w | 0 <= w < |s.used| :: s.used[w] == 0)
  }

  /** Every empty look has led one worker astray, and there it stays. */
  ghost predicate Counted(s: State) {
    AstrayWorkers(s.workers) == s.emptyRemoves
  }

  /** What has been taken out for a target has been completed or is in the hands of a worker. */
  ghost predicate Served(s: State) {
    forall op | Ordinary(op) :: multiset(s.dequeued)[op] == multiset(s.completed)[op] + InHand(s.workers, op)
  }

  ghost predicate Invariant(cfg: Config, s: State) {
    Accounted(s) && InOrder(s) && Counted(s) && Served(s) && Safe(cfg, s) && Supplied(cfg, s) && Fresh(cfg, s)
  }

  lemma InvariantInitially(cfg: Config)
    ensures Invariant(cfg, Start(cfg))
  {
    FreshCounts(cfg.workers);
    forall op | Ordinary(op)
      ensures InHand(Start(cfg).workers, op) == 0
    {
      FreshHands(cfg.workers, op);
    }
  }

  lemma {:induction false} OneMoreOf(ops: seq<Operation>, last: Operation, op: Operation)
    ensures multiset(ops + [last])[op] == multiset(ops)[op] + One(last == op)
  {
  }

  /** What a step of a worker takes out, completes and leaves in the worker's hands. */
  lemma {:induction false} HandsOfStep(cfg: Config, s: State, step: Step, op: Operation)
    requires Enabled(cfg, s, step) && WorkerStep(step) && Ordinary(op)
    ensures var t := Next(cfg, s, step);
            var w := step.w;
            var before, after := Holds(s.workers[w], op), Holds(t.workers[w], op);
            && w < |s.workers| == |t.workers| && t.workers == s.workers[w := t.workers[w]]
            && (t.dequeued == s.dequeued || (step.Fetch? && s.queue != [] && t.dequeued == s.dequeued + [s.queue[0]]))
            && (t.completed == s.completed
                || (s.workers[w].Completing? && t.completed == s.completed + [s.workers[w].current]))
            && (t.dequeued == s.dequeued ==> t.completed == s.completed ==> before == after)
            && (t.dequeued != s.dequeued ==> t.completed == s.completed && !before && after == (s.queue[0] == op))
            && (t.completed != s.completed ==> t.dequeued == s.dequeued && !after)
            && (t.completed != s.completed ==> before == (s.workers[w].current == op))
  {
    hide AllDown, Pushed;
  }

  lemma {:induction false} ServedByWorker(cfg: Config, s: State, step: Step, op: Operation)
    requires Enabled(cfg, s, step) && WorkerStep(step) && Ordinary(op)
    requires multiset(s.dequeued)[op] == multiset(s.completed)[op] + InHand(s.workers, op)
    ensures var t := Next(cfg, s, step);
            multiset(t.dequeued)[op] == multiset(t.completed)[op] + InHand(t.workers, op)
  {
    HandsOfStep(cfg, s, step, op);
    hide *;
    var t := Next(cfg, s, step);
    InHandChange(s.workers, step.w, t.workers[step.w], op);
    if t.dequeued != s.dequeued {
      OneMoreOf(s.dequeued, s.queue[0], op);
    } else if t.completed != s.completed {
      OneMoreOf(s.completed, s.workers[step.w].current, op);
    }
  }

  lemma {:induction false} ServedKept(cfg: Config, s: State, step: Step)
    requires Served(s) && Enabled(cfg, s, step)
    ensures Served(Next(cfg, s, step))
  {
    if WorkerStep(step) {
      hide Enabled, Next, InHand, Ordinary, WorkerStep;
      forall op | Ordinary(op)
        ensures var t := Next(cfg, s, step);
                multiset(t.dequeued)[op] == multiset(t.completed)[op] + InHand(t.workers, op)
      {
        ServedByWorker(cfg, s, step, op);
      }
    } else {
      hide InHand, Ordinary, AllDown;
    }
  }

  lemma {:induction false} AccountedByWorker(cfg: Config, s: State, step: Step)
    requires Accounted(s) && Enabled(cfg, s, step) && WorkerStep(step)
    ensures Accounted(Next(cfg, s, step))
  {
    hide Waiting, Fetching, PostingWorkers, TotalRank, AstrayWorkers, Ordinary, AllDown, Rank;
    CountsChange(s.workers, step.w, Next(cfg, s, step).workers[step.w]);
  }

  lemma {:induction false} AccountedKept(cfg: Config, s: State, step: Step)
    requires Accounted(s) && Enabled(cfg, s, step)
    ensures Accounted(Next(cfg, s, step))
  {
    hide *;
    if WorkerStep(step) {
      AccountedByWorker(cfg, s, step);
    } else {
      AccountedByOthers(cfg, s, step);
    }
  }

  lemma {:induction false} AccountedByOthers(cfg: Config, s: State, step: Step)
    requires Accounted(s) && Enabled(cfg, s, step) && !WorkerStep(step)
    ensures Accounted(Next(cfg, s, step))
  {
    hide Waiting, Fetching, PostingWorkers, TotalRank, AstrayWorkers, Ordinary, AllDown;
  }

  lemma {:induction false} SafeByWorker(cfg: Config, s: State, step: Step)
    requires Safe(cfg, s) && Enabled(cfg, s, step) && WorkerStep(step)
    ensures Safe(cfg, Next(cfg, s, step))
  {
    hide AllDown, One;
  }

  lemma SafeByOthers(cfg: Config, s: State, step: Step)
    requires Safe(cfg, s) && Enabled(cfg, s, step) && !WorkerStep(step)
    ensures Safe(cfg, Next(cfg, s, step))
  {
    var t := Next(cfg, s, step);
    assert forall i | 0 <= i < |s.queue| :: Sound(s, s.queue[i]) ==> Sound(t, s.queue[i]);
  }

  lemma {:induction false} InOrderKept(cfg: Config, s: State, step: Step)
    requires InOrder(s) && Enabled(cfg, s, step)
    ensures InOrder(Next(cfg, s, step))
  {
    hide Ordinary;
    assert s.queue != [] ==> s.dequeued + s.queue == (s.dequeued + [s.queue[0]]) + s.queue[1..];
  }

  lemma {:induction false} CountedByWorker(cfg: Config, s: State, step: Step)
    requires Safe(cfg, s) && Counted(s) && Enabled(cfg, s, step) && WorkerStep(step)
    ensures Counted(Next(cfg, s, step))
  {
    hide AstrayWorkers, Waiting, Fetching, PostingWorkers, TotalRank, Rank, AllDown;
    CountsChange(s.workers, step.w, Next(cfg, s, step).workers[step.w]);
  }

  lemma {:induction false} CountedByOthers(cfg: Config, s: State, step: Step)
    requires Counted(s) && Enabled(cfg, s, step) && !WorkerStep(step)
    ensures Counted(Next(cfg, s, step))
  {
    hide AstrayWorkers, AllDown, Ordinary;
  }

  lemma {:induction false} CountedKept(cfg: Config, s: State, step: Step)
    requires Safe(cfg, s) && Counted(s) && Enabled(cfg, s, step)
    ensures Counted(Next(cfg, s, step))
  {
    hide *;
    if WorkerStep(step) {
      CountedByWorker(cfg, s, step);
    } else {
      CountedByOthers(cfg, s, step);
    }
  }

  lemma SafeKept(cfg: Config, s: State, step: Step)
    requires Safe(cfg, s) && Enabled(cfg, s, step)
    ensures Safe(cfg, Next(cfg, s, step))
  {
    hide Safe, Enabled, Next;
    if WorkerStep(step) {
      SafeByWorker(cfg, s, step);
    } else {
      SafeByOthers(cfg, s, step);
    }
  }

  lemma {:induction false} SuppliedByWorker(cfg: Config, s: State, step: Step)
    requires Supplied(cfg, s) && Enabled(cfg, s, step) && WorkerStep(step) && Safe(cfg, s)
    ensures Supplied(cfg, Next(cfg, s, step))
  {
    hide Waiting, Fetching, PostingWorkers, TotalRank, AstrayWorkers, Rank, Ordinary, Sound, AllDown;
    CountsChange(s.workers, step.w, Next(cfg, s, step).workers[step.w]);
  }

  lemma {:induction false} SuppliedByOthers(cfg: Config, s: State, step: Step)
    requires Supplied(cfg, s) && Enabled(cfg, s, step) && !WorkerStep(step) && Safe(cfg, s)
    ensures Supplied(cfg, Next(cfg, s, step))
  {
    hide Ordinary, Sound, AllDown;
    WaitingIsBounded(s.workers);
    hide Waiting;
  }

  lemma {:induction false} WaitingIsBounded(ws: seq<Worker>)
    ensures Waiting(ws) <= |ws|
  {
  }

  lemma {:induction false} FreshKept(cfg: Config, s: State, step: Step)
    requires Safe(cfg, s) && Fresh(cfg, s) && Enabled(cfg, s, step)
    ensures Fresh(cfg, Next(cfg, s, step))
  {
    hide Ordinary, Sound;
  }

  lemma {:induction false} SuppliedKept(cfg: Config, s: State, step: Step)
    requires Safe(cfg, s) && Supplied(cfg, s) && Fresh(cfg, s) && Enabled(cfg, s, step)
    ensures Supplied(cfg, Next(cfg, s, step)) && Fresh(cfg, Next(cfg, s, step))
  {
    hide *;
    FreshKept(cfg, s, step);
    if WorkerStep(step) {
      SuppliedByWorker(cfg, s, step);
    } else {
      SuppliedByOthers(cfg, s, step);
    }
  }

  lemma {:induction false} InvariantKept(cfg: Config, s: State, step: Step)
    requires Invariant(cfg, s) && Enabled(cfg, s, step)
    ensures Invariant(cfg, Next(cfg, s, step))
  {
    hide Accounted, InOrder, Counted, Served, Safe, Supplied, Fresh, Enabled, Next;
    ServedKept(cfg, s, step);
    AccountedKept(cfg, s, step);
    InOrderKept(cfg, s, step);
    CountedKept(cfg, s, step);
    SafeKept(cfg, s, step);
    SuppliedKept(cfg, s, step);
  }

  lemma {:induction false} InvariantOfRun(cfg: Config, s: State, steps: seq<Step>, t: State)
    requires Invariant(cfg, s) && Runs(cfg, s, steps, t)
    ensures Invariant(cfg, t)
    decreases |steps|
  {
    hide Invariant, Enabled, Next;
    if steps != [] {
      InvariantKept(cfg, s, steps[0]);
      InvariantOfRun(cfg, Next(cfg, s, steps[0]), steps[1..], t);
    }
  }

  lemma InvariantHolds(cfg: Config, steps: seq<Step>, t: State)
    requires Runs(cfg, Start(cfg), steps, t)
    ensures Invariant(cfg, t)
  {
    hide Runs, Invariant;
    InvariantInitially(cfg);
    InvariantOfRun(cfg, Start(cfg), steps, t);
  }

  // ------------------------------------------------------------------- the queue itself

  /** Tokens, and posts and removes to come. */
  function WakeUps(t: State): nat {
    t.tokens + |t.producers| + PostingWorkers(t.workers) + One(t.controller.Feeding? && t.controller.pending)
        + Fetching(t.workers)
  }

  /**
   * In every run, with any number of producers and workers and even when pushes are refused: no wake-up is
   * lost, the surplus of wake-ups is refused pushes minus empty looks, and the workers together take out exactly
   * the accepted operations in the order of acceptance.
   */
  lemma NoWakeUpIsLost(cfg: Config, steps: seq<Step>, t: State)
    requires Runs(cfg, Start(cfg), steps, t)
    ensures t.dequeued + t.queue == t.accepted
    ensures WakeUps(t) >= |t.queue| && WakeUps(t) - |t.queue| == t.failedPushes - t.emptyRemoves
  {
    hide Runs, Safe, Supplied, Fresh;
    InvariantHolds(cfg, steps, t);
  }

  /**
   * In every run: each accepted operation that has a target has been completed, is in the hands of one worker, or is
   * still queued, as often as it was accepted. Once the queue and the hands are empty, all of them have been completed.
   */
  lemma {:induction false} AcceptedIsCompleted(cfg: Config, steps: seq<Step>, t: State)
    requires Runs(cfg, Start(cfg), steps, t)
    ensures forall op | Ordinary(op) ::
              multiset(t.accepted)[op]
              == multiset(t.completed)[op] + InHand(t.workers, op) + multiset(t.queue)[op]
    ensures t.queue == [] && (forall op, w | 0 <= w < |t.workers| :: !Holds(t.workers[w], op)) ==>
              forall op | Ordinary(op) :: multiset(t.completed)[op] == multiset(t.accepted)[op]
  {
    InvariantHolds(cfg, steps, t);
    hide *;
    PartsOfInvariant(cfg, t);
    forall op | Ordinary(op)
      ensures multiset(t.accepted)[op] == multiset(t.completed)[op] + InHand(t.workers, op) + multiset(t.queue)[op]
      ensures (forall w | 0 <= w < |t.workers| :: !Holds(t.workers[w], op)) ==> InHand(t.workers, op) == 0
    {
      assert multiset(t.accepted) == multiset(t.dequeued) + multiset(t.queue);
      NobodyHolds(t.workers, op);
    }
  }

  lemma {:induction false} PartsOfInvariant(cfg: Config, s: State)
    requires Invariant(cfg, s)
    ensures s.dequeued + s.queue == s.accepted
    ensures forall op | Ordinary(op) :: multiset(s.dequeued)[op] == multiset(s.completed)[op] + InHand(s.workers, op)
  {
  }

  lemma {:induction false} NobodyHolds(ws: seq<Worker>, op: Operation)
    ensures InHand(ws, op) == 0 <==> forall w | 0 <= w < |ws| :: !Holds(ws[w], op)
    decreases |ws|
  {
    if ws != [] {
      NobodyHolds(ws[1..], op);
      assert forall w | 0 < w < |ws| :: ws[1..][w - 1] == ws[w];
      assert forall w | 0 <= w < |ws| - 1 :: ws[1..][w] == ws[w + 1];
    }
  }

  /** Complete is called for what a worker has taken out, with that very operation, whatever the flags are by then. */
  lemma {:induction false} TakenIsCompleted(cfg: Config, s: State, w: nat, op: Operation)
    requires w < |s.workers| && s.workers[w] == Deciding(Some(op)) && w < |s.runnable| && Ordinary(op)
    ensures Enabled(cfg, s, Decide(w))
    ensures var t := Next(cfg, s, Decide(w));
            t.workers == s.workers[w := Completing(op)] && Enabled(cfg, t, CompleteEnd(w))
            && Next(cfg, t, CompleteEnd(w)).completed == s.completed + [op]
  {
  }

  /** As long as no push has been refused, no worker looks into an empty queue, and none crashes. */
  lemma CrashNeedsOverflow(cfg: Config, steps: seq<Step>, t: State)
    requires Runs(cfg, Start(cfg), steps, t)
    requires t.failedPushes == 0
    ensures forall w | 0 <= w < |t.workers| :: t.workers[w] != Crashed && t.workers[w] != Deciding(None)
    ensures forall w | 0 <= w < |t.workers| && t.workers[w] == Deciding(Some(STOP_TOKEN)) ::
              Enabled(cfg, t, Decide(w)) && Next(cfg, t, Decide(w)).workers[w] == Exited
  {
    hide Runs, Supplied, Fresh;
    InvariantHolds(cfg, steps, t);
  }

  /** How often an insertion in the run met a full queue. */
  ghost function Overflows(cfg: Config, s: State, steps: seq<Step>): nat
    decreases |steps|
  {
    if steps == [] || !Enabled(cfg, s, steps[0]) then 0
    else One(Inserts(steps[0]) && |s.queue| >= cfg.capacity) + Overflows(cfg, Next(cfg, s, steps[0]), steps[1..])
  }

  predicate Inserts(step: Step) {
    step.Insert? || step.CompleteInsert? || step.FeedInsert?
  }

  lemma {:induction false} OverflowsAreRefused(cfg: Config, s: State, steps: seq<Step>, t: State)
    requires Runs(cfg, s, steps, t)
    ensures t.failedPushes == s.failedPushes + Overflows(cfg, s, steps)
    decreases |steps|
  {
    if steps != [] {
      RefusedByStep(cfg, s, steps[0]);
      hide Enabled, Next, Inserts;
      OverflowsAreRefused(cfg, Next(cfg, s, steps[0]), steps[1..], t);
    }
  }

  lemma {:induction false} RefusedByStep(cfg: Config, s: State, step: Step)
    requires Enabled(cfg, s, step)
    ensures Next(cfg, s, step).failedPushes == s.failedPushes + One(Inserts(step) && |s.queue| >= cfg.capacity)
  {
    hide Ordinary;
  }

  /**
   * When, and how many, workers crash, for every run: each insertion that meets a full queue leaves a wake-up too
   * many, and each surplus wake-up, once it has been used on an empty queue, leads exactly one worker astray.
   */
  lemma {:induction false} AstrayCount(cfg: Config, steps: seq<Step>, t: State)
    requires Runs(cfg, Start(cfg), steps, t)
    ensures AstrayWorkers(t.workers) + (WakeUps(t) - |t.queue|) == Overflows(cfg, Start(cfg), steps)
    ensures AstrayWorkers(t.workers) <= Overflows(cfg, Start(cfg), steps)
  {
    hide Runs, Safe, Supplied, Fresh, Overflows, AstrayWorkers;
    InvariantHolds(cfg, steps, t);
    OverflowsAreRefused(cfg, Start(cfg), steps, t);
  }

  /**
   * Once the wake-ups are down to one for each queued operation, some worker has crashed or is about to if and
   * only if some insertion met a full queue.
   */
  lemma {:induction false} CrashIffOverflow(cfg: Config, steps: seq<Step>, t: State)
    requires Runs(cfg, Start(cfg), steps, t)
    requires WakeUps(t) == |t.queue|
    ensures (exists w :: 0 <= w < |t.workers| && Astray(t.workers[w])) <==> Overflows(cfg, Start(cfg), steps) > 0
  {
    AstrayCount(cfg, steps, t);
    hide *;
    SomeAstrayIff(t.workers);
  }

  lemma {:induction false} SomeAstrayIff(ws: seq<Worker>)
    ensures AstrayWorkers(ws) > 0 <==> exists w :: 0 <= w < |ws| && Astray(ws[w])
    decreases |ws|
  {
    if ws != [] {
      SomeAstrayIff(ws[1..]);
      assert forall w :: 0 <= w < |ws| - 1 ==> ws[1..][w] == ws[w + 1];
      if w :| 0 <= w < |ws| && Astray(ws[w]) {
        assert w > 0 ==> ws[1..][w - 1] == ws[w];
      }
    }
  }

  /** A worker that has come back from an empty queue can do nothing but crash, and a crashed one stays crashed. */
  lemma {:induction false} AstrayStays(cfg: Config, s: State, step: Step, w: nat)
    requires Enabled(cfg, s, step) && w < |s.workers| && Astray(s.workers[w])
    ensures w < |Next(cfg, s, step).workers| && Astray(Next(cfg, s, step).workers[w])
    ensures WorkerStep(step) && step.w == w ==> Next(cfg, s, step).workers[w] == Crashed
  {
  }

  // ------------------------------------------------------------------------ shutdown

  function WorkerSteps(steps: seq<Step>): nat {
    if steps == [] then 0 else One(WorkerStep(steps[0])) + WorkerSteps(steps[1..])
  }

  /** With all flags down, every step of a worker brings it nearer to the end, and no other step sets it back. */
  lemma {:induction false} RankFalls(cfg: Config, s: State, step: Step)
    requires Safe(cfg, s) && Enabled(cfg, s, step) && AllDown(cfg, s)
    ensures AllDown(cfg, Next(cfg, s, step))
    ensures TotalRank(Next(cfg, s, step).workers) + One(WorkerStep(step)) <= TotalRank(s.workers)
  {
    hide TotalRank, Sound, Waiting, Fetching, PostingWorkers, AstrayWorkers, Ordinary, Supplied, Fresh;
    if WorkerStep(step) {
      CountsChange(s.workers, step.w, Next(cfg, s, step).workers[step.w]);
    }
  }

  /** After the flags have been cleared the workers take no more than six steps each, whatever the others do. */
  lemma {:induction false} ShutdownIsBounded(cfg: Config, s: State, steps: seq<Step>, t: State)
    requires Invariant(cfg, s) && AllDown(cfg, s)
    requires Runs(cfg, s, steps, t)
    ensures AllDown(cfg, t)
    ensures WorkerSteps(steps) + TotalRank(t.workers) <= TotalRank(s.workers) <= 6 * cfg.workers
    decreases |steps|
  {
    if steps != [] {
      assert Safe(cfg, s);
      InvariantKept(cfg, s, steps[0]);
      RankFalls(cfg, s, steps[0]);
      hide Invariant, Enabled, Next, TotalRank, Safe, AllDown;
      ShutdownIsBounded(cfg, Next(cfg, s, steps[0]), steps[1..], t);
    }
  }

  /** With every stop token fed, a worker that has not come to its end can take a step. */
  lemma SomeWorkerCanStep(cfg: Config, t: State, w: nat) returns (step: Step)
    requires Invariant(cfg, t) && t.controller == Feeding(cfg.workers, false)
    requires w < cfg.workers && t.workers[w] != Exited && t.workers[w] != Crashed
    ensures WorkerStep(step) && Enabled(cfg, t, step)
  {
    match t.workers[w]
    case AtCheck => step := Check(w);
    case AtWait =>
      SomeWaiting(t.workers, w);
      step := Take(w);
    case AtRemove => step := Fetch(w);
    case Deciding(_) => step := Decide(w);
    case Completing(_) => step := CompleteEnd(w);
    case CompletePosting => step := CompletePost(w);
  }

  /** The steps that Shutdown still has to take: a flag and a stop token, inserted and posted, for each worker. */
  function StepsLeft(cfg: Config, controller: Controller): int {
    match controller
    case Idle => 3 * cfg.workers + 2
    case Clearing(flags) => 3 * cfg.workers - flags + 1
    case Feeding(posted, pending) => 2 * (cfg.workers - posted) - One(pending)
  }

  /** Nothing can hold Shutdown up: until the last stop token has been posted it has a step that brings it nearer. */
  lemma {:induction false} ShutdownGoesOn(cfg: Config, t: State) returns (step: Step)
    requires Safe(cfg, t)
    ensures StepsLeft(cfg, t.controller) >= 0
    ensures StepsLeft(cfg, t.controller) == 0 <==> t.controller == Feeding(cfg.workers, false)
    ensures StepsLeft(cfg, t.controller) > 0 ==>
              Enabled(cfg, t, step)
              && StepsLeft(cfg, Next(cfg, t, step).controller) == StepsLeft(cfg, t.controller) - 1
  {
    match t.controller
    case Idle => step := BeginShutdown;
    case Clearing(flags) => step := if flags < cfg.workers then ClearFlag else BeginFeeding;
    case Feeding(_, pending) => step := if pending then FeedPost else FeedInsert;
  }

  /**
   * Shutdown terminates under every interleaving: from the moment all flags are down a worker takes at most one
   * more token, all workers together take at most 6n more steps, and when none of them can take another step
   * after the last stop token has been posted, all have exited, provided that no push was ever refused.
   */
  lemma AllWorkersExit(cfg: Config, before: seq<Step>, s: State, after: seq<Step>, t: State)
    requires Runs(cfg, Start(cfg), before, s) && AllDown(cfg, s)
    requires Runs(cfg, s, after, t)
    ensures WorkerSteps(after) <= 6 * cfg.workers
    ensures |t.used| == |t.workers| == cfg.workers
    ensures forall w | 0 <= w < cfg.workers :: t.used[w] <= 1
    ensures t.controller == Feeding(cfg.workers, false) && t.failedPushes == 0
            && (forall step | WorkerStep(step) :: !Enabled(cfg, t, step))
            ==> forall w | 0 <= w < cfg.workers :: t.workers[w] == Exited
  {
    hide Runs, Enabled, WorkerStep, Sound;
    InvariantHolds(cfg, before, s);
    ShutdownIsBounded(cfg, s, after, t);
    InvariantOfRun(cfg, s, after, t);
    if t.controller == Feeding(cfg.workers, false) && t.failedPushes == 0
       && (forall step | WorkerStep(step) :: !Enabled(cfg, t, step)) {
      forall w | 0 <= w < cfg.workers
        ensures t.workers[w] == Exited
      {
        if t.workers[w] != Exited {
          var step := SomeWorkerCanStep(cfg, t, w);
        }
      }
    }
  }

  // ----------------------------------------------------- overflow is enough for a crash

  lemma {:induction false} RunsAppend(cfg: Config, s: State, first: seq<Step>, t: State, second: seq<Step>, u: State)
    requires Runs(cfg, s, first, t) && Runs(cfg, t, second, u)
    ensures Runs(cfg, s, first + second, u)
    decreases |first|
  {
    if first == [] {
      assert first + second == second;
    } else {
      assert (first + second)[1..] == first[1..] + second;
      RunsAppend(cfg, Next(cfg, s, first[0]), first[1..], t, second, u);
    }
  }

  lemma OneStep(cfg: Config, s: State, first: seq<Step>, t: State, step: Step)
    requires Runs(cfg, s, first, t) && Enabled(cfg, t, step)
    ensures Runs(cfg, s, first + [step], Next(cfg, t, step))
  {
    assert Runs(cfg, t, [step], Next(cfg, t, step));
    RunsAppend(cfg, s, first, t, [step], Next(cfg, t, step));
  }

  const READY := Operation(Some(0), Recv)

  /** Worker 0 is about to look at its flag, which is up, and nothing is in progress. */
  ghost predicate Loaded(cfg: Config, s: State, queued: nat, tokens: nat, refused: nat) {
    && |s.workers| == |s.runnable| == |s.used| == cfg.workers > 0
    && s.workers[0] == AtCheck && s.runnable[0] && s.producers == {} && s.controller == Idle
    && |s.queue| == queued && s.tokens == tokens && s.failedPushes == refused
    && forall i | 0 <= i < queued :: s.queue[i] == READY
  }

  /** Any number of insertions: those beyond the capacity are refused, but each one leaves a token. */
  lemma {:induction false} Flood(cfg: Config, n: nat) returns (steps: seq<Step>, s: State)
    requires cfg.workers > 0
    ensures Runs(cfg, Start(cfg), steps, s)
    ensures Loaded(cfg, s, if n <= cfg.capacity then n else cfg.capacity, n,
                   if n <= cfg.capacity then 0 else n - cfg.capacity)
    decreases n
  {
    if n == 0 {
      steps, s := [], Start(cfg);
    } else {
      hide Runs;
      var before, b := Flood(cfg, n - 1);
      OneStep(cfg, Start(cfg), before, b, Insert(0, READY));
      var m := Next(cfg, b, Insert(0, READY));
      OneStep(cfg, Start(cfg), before + [Insert(0, READY)], m, InsertPost(0));
      s := Next(cfg, m, InsertPost(0));
      assert s.producers == {};
      steps := before + [Insert(0, READY)] + [InsertPost(0)];
    }
  }

  /** The first four steps of a round of worker 0. */
  lemma Serve(cfg: Config, s: State, queued: nat, tokens: nat, refused: nat) returns (steps: seq<Step>, t: State)
    requires Loaded(cfg, s, queued, tokens, refused) && tokens > 0
    ensures Runs(cfg, s, steps, t)
    ensures queued > 0 ==> Loaded(cfg, t, queued - 1, tokens - 1, refused)
    ensures queued == 0 ==> |t.workers| > 0 && t.workers[0] == Crashed && t.failedPushes == refused
  {
    hide Runs;
    NoSteps(cfg, s);
    OneStep(cfg, s, [], s, Check(0));
    var a := Next(cfg, s, Check(0));
    OneStep(cfg, s, [] + [Check(0)], a, Take(0));
    var b := Next(cfg, a, Take(0));
    OneStep(cfg, s, [] + [Check(0)] + [Take(0)], b, Fetch(0));
    var c := Next(cfg, b, Fetch(0));
    OneStep(cfg, s, [] + [Check(0)] + [Take(0)] + [Fetch(0)], c, Decide(0));
    t := Next(cfg, c, Decide(0));
    steps := [] + [Check(0)] + [Take(0)] + [Fetch(0)] + [Decide(0)];
    if queued > 0 {
      OneStep(cfg, s, steps, t, CompleteEnd(0));
      t, steps := Next(cfg, t, CompleteEnd(0)), steps + [CompleteEnd(0)];
    }
  }

  lemma NoSteps(cfg: Config, s: State)
    ensures Runs(cfg, s, [], s)
  {
  }

  lemma {:induction false} ServeUntilCrash(cfg: Config, s: State, queued: nat, tokens: nat, refused: nat)
    returns (steps: seq<Step>, t: State)
    requires Loaded(cfg, s, queued, tokens, refused) && tokens > queued
    ensures Runs(cfg, s, steps, t)
    ensures |t.workers| > 0 && t.workers[0] == Crashed && t.failedPushes == refused
    decreases queued
  {
    hide Runs;
    steps, t := Serve(cfg, s, queued, tokens, refused);
    if queued > 0 {
      var more, u := ServeUntilCrash(cfg, t, queued - 1, tokens - 1, refused);
      RunsAppend(cfg, s, steps, t, more, u);
      steps, t := steps + more, u;
    }
  }

  /** Whatever the capacity, one refused push is enough: the token it leaves makes a worker follow no pointer. */
  lemma SomeRunCrashes(cfg: Config) returns (steps: seq<Step>, t: State)
    requires cfg.workers > 0
    ensures Runs(cfg, Start(cfg), steps, t)
    ensures t.failedPushes == 1 && |t.workers| > 0 && t.workers[0] == Crashed
  {
    hide Runs;
    var first, s := Flood(cfg, cfg.capacity + 1);
    var second;
    second, t := ServeUntilCrash(cfg, s, cfg.capacity, cfg.capacity + 1, 1);
    RunsAppend(cfg, Start(cfg), first, s, second, t);
    steps := first + second;
  }
}
