/** The thread pool as a protocol: workers, callers of add and clear, and the caller of free, all
    interleaved; the lock, the condition variable and the task queue between them. */
module ThreadPool {
  import opened Counting

  // An accepted task is named by the number of tasks accepted before it.
  type Task = nat

  datatype Shutdown = No | WaitCurrent | WaitAll

  /** Where a worker is in `thpool_thread`. Holding is between dequeue and unlock, Taken before the
      increment of `running_tasks`, Finished before its decrement. */
  datatype Worker =
    | Ready | Checking | Waiting | Holding(task: Task) | Taken(task: Task) | Running(task: Task) | Finished
    | Leaving | Exited

  /** Where a caller is in `m_thpool_add` or `m_thpool_clear`, after the unlocked test at their start. */
  datatype Client =
    | Idle | AddEntered | AddLocked | AddRoom | AddQueued | AddSignalled | ClearEntered | ClearLocked | ClearDone

  /** Where the caller of `m_thpool_free` is in `wait_pool`. The source leaves open in which order the
      condition variable is broadcast and the lock released. Of the threads that the list holds when
      the joins begin, the youngest, at its head, is joined first; `left` are still to be joined. */
  datatype Owner =
    | Outside | WantsLock | HasLock | Announced(broadcast: bool, unlocked: bool) | Joining(left: nat, all: nat)
    | Joined

  datatype Lock = Free | ByWorker(w: nat) | ByClient(c: nat) | ByOwner

  datatype State = State(
    lazy: bool, maxThreads: nat, workers: seq<Worker>, clients: seq<Client>, owner: Owner, waitAll: bool,
    lock: Lock, queue: seq<Task>, shutdown: Shutdown, running: int,
    accepted: nat, done: seq<Task>, cleared: seq<Task>,
    late: nat,  // the adds that took the lock after shutdown was set
    stranded: nat)  // the tasks queued while no worker was left, since the last clear or the last new worker

  datatype Action =
    | WorkerLocks(w: nat) | WorkerWaits(w: nat) | WakesSpuriously(w: nat) | WorkerLeaves(w: nat) | TakesTask(w: nat)
    | WorkerUnlocks(w: nat) | StartsTask(w: nat) | FinishesTask(w: nat) | CountsDown(w: nat) | WorkerExits(w: nat)
    | AddEnters(c: nat) | AddLocks(c: nat) | AddMakesRoom(c: nat) | AddEnqueues(c: nat)
    | AddSignals(c: nat, w: nat) | AddUnlocks(c: nat)
    | ClearEnters(c: nat) | ClearLocks(c: nat) | Clears(c: nat) | ClearUnlocks(c: nat)
    | FreeBegins(all: bool) | FreeLocks | FreeAnnounces | FreeBroadcasts | FreeUnlocks
    | FreeLists | FreeJoins | FreeEnds

  /** `m_thpool_new`: the workers are started at once, or one by one when the pool is lazy. */
  function Init(maxThreads: nat, lazy: bool, callers: nat): State
    requires maxThreads > 0
  {
    State(lazy, maxThreads, if lazy then [] else seq(maxThreads, _ => Ready), seq(callers, _ => Idle), Outside, false,
          Free, [], No, 0, 0, [], [], 0, 0)
  }

  /** The test in `thpool_thread` after the wait: leave now, or when nothing is queued any more. */
  predicate MustLeave(s: State) {
    s.shutdown != No && (s.shutdown == WaitCurrent || |s.queue| == 0)
  }

  predicate ClientAt(s: State, c: nat, p: Client) {
    c < |s.clients| && s.clients[c] == p
  }

  predicate Gone(p: Worker) { p.Leaving? || p.Exited? }

  predicate AllGone(s: State) {
    forall w | 0 <= w < |s.workers| :: Gone(s.workers[w])
  }

  predicate NoneWaits(s: State) {
    forall i | 0 <= i < |s.workers| :: s.workers[i] != Waiting
  }

  predicate Enabled(s: State, a: Action) {
    match a
    case WorkerLocks(w) => w < |s.workers| && s.workers[w] == Ready && s.lock == Free
    case WorkerWaits(w) => w < |s.workers| && s.workers[w] == Checking && |s.queue| == 0 && s.shutdown == No
    case WakesSpuriously(w) => w < |s.workers| && s.workers[w] == Waiting
    case WorkerLeaves(w) => w < |s.workers| && s.workers[w] == Checking && MustLeave(s)
    case TakesTask(w) =>
      w < |s.workers| && s.workers[w] == Checking && !(|s.queue| == 0 && s.shutdown == No) && !MustLeave(s)
    case WorkerUnlocks(w) => w < |s.workers| && s.workers[w].Holding?
    case StartsTask(w) => w < |s.workers| && s.workers[w].Taken?
    case FinishesTask(w) => w < |s.workers| && s.workers[w].Running?
    case CountsDown(w) => w < |s.workers| && s.workers[w] == Finished
    case WorkerExits(w) => w < |s.workers| && s.workers[w] == Leaving
    case AddEnters(c) => ClientAt(s, c, Idle) && s.shutdown == No
    case AddLocks(c) => ClientAt(s, c, AddEntered) && s.lock == Free
    case AddMakesRoom(c) => ClientAt(s, c, AddLocked)
    case AddEnqueues(c) => ClientAt(s, c, AddRoom)
    case AddSignals(c, w) => ClientAt(s, c, AddQueued) && (NoneWaits(s) || (w < |s.workers| && s.workers[w] == Waiting))
    case AddUnlocks(c) => ClientAt(s, c, AddSignalled)
    case ClearEnters(c) => ClientAt(s, c, Idle) && s.shutdown == No
    case ClearLocks(c) => ClientAt(s, c, ClearEntered) && s.lock == Free
    case Clears(c) => ClientAt(s, c, ClearLocked)
    case ClearUnlocks(c) => ClientAt(s, c, ClearDone)
    case FreeBegins(_) => s.owner == Outside
    case FreeLocks => s.owner == WantsLock && s.lock == Free
    case FreeAnnounces => s.owner == HasLock
    case FreeBroadcasts => s.owner.Announced? && !s.owner.broadcast
    case FreeUnlocks => s.owner.Announced? && !s.owner.unlocked
    case FreeLists => s.owner == Announced(true, true)
    case FreeJoins => s.owner.Joining? && 0 < s.owner.left <= |s.workers| && s.workers[s.owner.left - 1] == Exited
    case FreeEnds => s.owner.Joining? && s.owner.left == 0
  }

  function WithWorker(s: State, w: nat, p: Worker): State
    requires w < |s.workers|
  {
    s.(workers := s.workers[w := p])
  }

  function WithClient(s: State, c: nat, p: Client): State
    requires c < |s.clients|
  {
    s.(clients := s.clients[c := p])
  }

  function Awake(ws: seq<Worker>): (r: seq<Worker>)
    ensures |r| == |ws|
  {
    seq(|ws|, i requires 0 <= i < |ws| => if ws[i] == Waiting then Ready else ws[i])
  }

  function Step(s: State, a: Action): State
    requires Enabled(s, a)
  {
    match a
    case WorkerLocks(w) => WithWorker(s, w, Checking).(lock := ByWorker(w))
    case WorkerWaits(w) => WithWorker(s, w, Waiting).(lock := Free)
    case WakesSpuriously(w) => WithWorker(s, w, Ready)
    case WorkerLeaves(w) => WithWorker(s, w, Leaving)
    case TakesTask(w) => WithWorker(s, w, Holding(s.queue[0])).(queue := s.queue[1..])
    case WorkerUnlocks(w) => WithWorker(s, w, Taken(s.workers[w].task)).(lock := Free)
    case StartsTask(w) => WithWorker(s, w, Running(s.workers[w].task)).(running := s.running + 1)
    case FinishesTask(w) => WithWorker(s, w, Finished).(done := s.done + [s.workers[w].task])
    case CountsDown(w) => WithWorker(s, w, Ready).(running := s.running - 1)
    case WorkerExits(w) => WithWorker(s, w, Exited).(lock := Free)
    case AddEnters(c) => WithClient(s, c, AddEntered)
    case AddLocks(c) =>
      WithClient(s, c, AddLocked).(lock := ByClient(c), late := if s.shutdown == No then s.late else s.late + 1)
    case AddMakesRoom(c) =>
      var room := s.lazy && !(s.running < |s.workers|) && |s.workers| < s.maxThreads;
      WithClient(s, c, AddRoom).(workers := if room then s.workers + [Ready] else s.workers,
                                 stranded := if room then 0 else s.stranded)
    case AddEnqueues(c) =>
      WithClient(s, c, AddQueued).(queue := s.queue + [s.accepted], accepted := s.accepted + 1,
                                   stranded := if AllGone(s) then s.stranded + 1 else s.stranded)
    case AddSignals(c, w) =>
      WithClient(s, c, AddSignalled).(workers := if NoneWaits(s) then s.workers else s.workers[w := Ready])
    case AddUnlocks(c) => WithClient(s, c, Idle).(lock := Free)
    case ClearEnters(c) => WithClient(s, c, ClearEntered)
    case ClearLocks(c) => WithClient(s, c, ClearLocked).(lock := ByClient(c))
    case Clears(c) => WithClient(s, c, ClearDone).(queue := [], cleared := s.cleared + s.queue, stranded := 0)
    case ClearUnlocks(c) => WithClient(s, c, Idle).(lock := Free)
    case FreeBegins(all) => s.(owner := WantsLock, waitAll := all)
    case FreeLocks => s.(owner := HasLock, lock := ByOwner)
    case FreeAnnounces => s.(owner := Announced(false, false), shutdown := if s.waitAll then WaitAll else WaitCurrent)
    case FreeBroadcasts => s.(owner := Announced(true, s.owner.unlocked), workers := Awake(s.workers))
    case FreeUnlocks => s.(owner := Announced(s.owner.broadcast, true), lock := Free)
    case FreeLists => s.(owner := Joining(|s.workers|, |s.workers|))
    case FreeJoins => s.(owner := Joining(s.owner.left - 1, s.owner.all))
    case FreeEnds => s.(owner := Joined)
  }

  predicate Legal(s: State, run: seq<Action>)
    decreases |run|
  {
    run == [] || (Enabled(s, run[0]) && Legal(Step(s, run[0]), run[1..]))
  }

  function After(s: State, run: seq<Action>): State
    requires Legal(s, run)
    decreases |run|
  {
    if run == [] then s else After(Step(s, run[0]), run[1..])
  }

  // ---- the invariant ---------------------------------------------------------------

  predicate WorkerOwns(p: Worker) { p.Checking? || p.Holding? || p.Leaving? }

  predicate ClientOwns(p: Client) { !p.Idle? && !p.AddEntered? && !p.ClearEntered? }

  predicate AddInside(p: Client) { p.AddLocked? || p.AddRoom? || p.AddQueued? || p.AddSignalled? }

  predicate OwnerOwns(o: Owner) { o.HasLock? || (o.Announced? && !o.unlocked) }

  /** Exactly the holder of the lock is inside a critical section. */
  predicate Exclusive(s: State) {
    && (forall w | 0 <= w < |s.workers| :: WorkerOwns(s.workers[w]) <==> s.lock == ByWorker(w))
    && (forall c | 0 <= c < |s.clients| :: ClientOwns(s.clients[c]) <==> s.lock == ByClient(c))
    && (OwnerOwns(s.owner) <==> s.lock == ByOwner)
    && (s.lock.ByWorker? ==> s.lock.w < |s.workers|) && (s.lock.ByClient? ==> s.lock.c < |s.clients|)
  }

  function HeldBy(p: Worker): multiset<Task> {
    if p.Holding? || p.Taken? || p.Running? then multiset{p.task} else multiset{}
  }

  /** Every accepted task has exactly one fate. */
  ghost predicate Conserved(s: State) {
    multiset(s.queue) + Union(HeldBy, s.workers) + multiset(s.done) + multiset(s.cleared)
    == multiset(seq(s.accepted, i => i))
  }

  function Counted(p: Worker): nat { if p.Running? || p.Finished? then 1 else 0 }

  function Asleep(p: Worker): nat { if p.Waiting? then 1 else 0 }

  /** A worker on its way to the queue. */
  function Coming(p: Worker): nat { if p.Ready? || p.Checking? then 1 else 0 }

  function Unsignalled(s: State): nat {
    if s.lock.ByClient? && s.lock.c < |s.clients| && s.clients[s.lock.c] == AddQueued then 1 else 0
  }

  /** No wakeup is lost: while a worker sleeps, at least as many workers are on their way to the
      queue as tasks are queued, not counting a task whose signal is still to come. */
  ghost predicate Attended(s: State) {
    s.shutdown == No && Sum(Asleep, s.workers) > 0 ==> |s.queue| <= Sum(Coming, s.workers) + Unsignalled(s)
  }

  predicate Sized(s: State) {
    && 0 < s.maxThreads && |s.workers| <= s.maxThreads && (!s.lazy ==> |s.workers| == s.maxThreads)
    && (|s.workers| == 0 ==> |s.queue| == 0)
    && (|s.workers| == 0 ==> !(s.lock.ByClient? && s.lock.c < |s.clients| && s.clients[s.lock.c] == AddRoom))
  }

  predicate Ordered(s: State) {
    && (s.shutdown == No <==> s.owner.Outside? || s.owner.WantsLock? || s.owner.HasLock?)
    && (s.shutdown == WaitCurrent ==> !s.waitAll) && (s.shutdown == WaitAll ==> s.waitAll)
    && (s.shutdown != No && !(s.owner.Announced? && !s.owner.broadcast) ==> NoneWaits(s))
    && (s.shutdown == No ==> s.late == 0)
    && (s.shutdown != No ==> forall c | 0 <= c < |s.clients| && AddInside(s.clients[c]) :: s.late > 0)
  }

  /** No worker leaves before shutdown, nor under wait-all while tasks are queued. */
  predicate Drained(s: State) {
    forall w | 0 <= w < |s.workers| && Gone(s.workers[w]) ::
      s.shutdown == WaitCurrent || (s.shutdown == WaitAll && (s.late == 0 ==> |s.queue| == 0))
  }

  /** Threads are joined when they have exited, and all are joined unless a late add has started one. */
  predicate Joins(s: State) {
    && (s.owner.Joining? ==> s.owner.left <= s.owner.all <= |s.workers|)
    && (s.owner.Joining? && (s.late == 0 || !s.lazy) ==> s.owner.all == |s.workers|)
    && (s.owner.Joining? ==> forall w | s.owner.left <= w < s.owner.all :: s.workers[w] == Exited)
    && (s.owner.Joined? && (s.late == 0 || !s.lazy) ==> forall w | 0 <= w < |s.workers| :: s.workers[w] == Exited)
  }

  /** The queue holds the latest accepted tasks, in order of acceptance. */
  predicate Fifo(s: State) {
    |s.queue| <= s.accepted && forall i | 0 <= i < |s.queue| :: s.queue[i] == s.accepted - |s.queue| + i
  }

  /** A worker that leaves under wait-all leaves nothing behind; what comes later is stranded. */
  predicate Counts(s: State) {
    && (!AllGone(s) ==> s.stranded == 0)
    && (AllGone(s) && s.shutdown != WaitCurrent ==> |s.queue| == s.stranded)
  }

  ghost predicate Inv(s: State) {
    && Exclusive(s) && Conserved(s) && s.running == Sum(Counted, s.workers)
    && Attended(s) && Sized(s) && Ordered(s) && Drained(s) && Joins(s) && Fifo(s) && Counts(s)
  }
}
