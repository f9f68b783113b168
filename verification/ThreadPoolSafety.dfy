/** What every interleaving of the thread pool keeps, and what follows when it has been shut down. */
module ThreadPoolSafety {
  import opened Counting
  import opened ThreadPool

  // ---- one step --------------------------------------------------------------------

  predicate ByWorkers(a: Action) {
    || a.WorkerLocks? || a.WorkerWaits? || a.WakesSpuriously? || a.WorkerLeaves? || a.TakesTask? || a.WorkerUnlocks?
    || a.StartsTask? || a.FinishesTask? || a.CountsDown? || a.WorkerExits?
  }

  predicate ByAdders(a: Action) {
    a.AddEnters? || a.AddLocks? || a.AddMakesRoom? || a.AddEnqueues? || a.AddSignals? || a.AddUnlocks?
  }

  predicate ByClients(a: Action) {
    ByAdders(a) || a.ClearEnters? || a.ClearLocks? || a.Clears? || a.ClearUnlocks?
  }

  lemma ExclusiveByWorker(s: State, a: Action)
    requires Exclusive(s) && Enabled(s, a) && ByWorkers(a)
    ensures Exclusive(Step(s, a))
  {}

  lemma ExclusiveByAdder(s: State, a: Action)
    requires Exclusive(s) && Enabled(s, a) && ByAdders(a)
    ensures Exclusive(Step(s, a))
  {}

  lemma ExclusiveByClearer(s: State, a: Action)
    requires Exclusive(s) && Enabled(s, a) && ByClients(a) && !ByAdders(a)
    ensures Exclusive(Step(s, a))
  {}

  lemma ExclusiveByOwner(s: State, a: Action)
    requires Exclusive(s) && Enabled(s, a) && !ByWorkers(a) && !ByClients(a)
    ensures Exclusive(Step(s, a))
  {}

  lemma ExclusiveStep(s: State, a: Action)
    requires Exclusive(s) && Enabled(s, a)
    ensures Exclusive(Step(s, a))
  {
    hide Enabled, Step, Exclusive;
    if ByWorkers(a) {
      ExclusiveByWorker(s, a);
    } else if ByAdders(a) {
      ExclusiveByAdder(s, a);
    } else if ByClients(a) {
      ExclusiveByClearer(s, a);
    } else {
      ExclusiveByOwner(s, a);
    }
  }

  lemma AwakeHolds(ws: seq<Worker>)
    ensures Union(HeldBy, Awake(ws)) == Union(HeldBy, ws)
  {
    UnionSame(HeldBy, Awake(ws), ws);
  }

  lemma AwakeCounts(ws: seq<Worker>)
    ensures Sum(Counted, Awake(ws)) == Sum(Counted, ws)
    ensures Sum(Asleep, Awake(ws)) == 0
  {
    SumMonotone(Counted, Awake(ws), ws);
    SumMonotone(Counted, ws, Awake(ws));
    SumZero(Asleep, Awake(ws));
  }

  predicate MovesWorker(s: State, a: Action) {
    ByWorkers(a) || (a.AddSignals? && !NoneWaits(s))
  }

  lemma HeldMove(ws: seq<Worker>, w: nat, p: Worker)
    requires w < |ws|
    ensures HeldBy(p) == HeldBy(ws[w]) ==> Union(HeldBy, ws[w := p]) == Union(HeldBy, ws)
    ensures HeldBy(ws[w]) == multiset{} ==> Union(HeldBy, ws[w := p]) == Union(HeldBy, ws) + HeldBy(p)
    ensures HeldBy(p) == multiset{} ==> Union(HeldBy, ws) == Union(HeldBy, ws[w := p]) + HeldBy(ws[w])
  {
    UnionUpdate(HeldBy, ws, w, p);
    if HeldBy(p) == HeldBy(ws[w]) {
      UnionSame(HeldBy, ws, ws[w := p]);
    }
  }

  lemma MovedWorker(s: State, a: Action)
    requires Enabled(s, a) && MovesWorker(s, a)
    ensures a.w < |s.workers| == |Step(s, a).workers|
    ensures Step(s, a).workers == s.workers[a.w := Step(s, a).workers[a.w]]
  {}

  lemma MovedHolds(s: State, a: Action)
    requires Enabled(s, a) && MovesWorker(s, a) && !a.TakesTask? && !a.FinishesTask?
    requires a.w < |s.workers| == |Step(s, a).workers|
    ensures HeldBy(Step(s, a).workers[a.w]) == HeldBy(s.workers[a.w])
  {
    var p, p' := s.workers[a.w], Step(s, a).workers[a.w];
    assert if a.WorkerUnlocks? then p.Holding? && p' == Taken(p.task)
           else if a.StartsTask? then p.Taken? && p' == Running(p.task)
           else !p.Holding? && !p.Taken? && !p.Running? && !p'.Holding? && !p'.Taken? && !p'.Running?;
  }

  lemma OtherWorkers(s: State, a: Action)
    requires Enabled(s, a) && !MovesWorker(s, a)
    ensures var ws := Step(s, a).workers;
            if a.FreeBroadcasts? then ws == Awake(s.workers) else ws == s.workers || ws == s.workers + [Ready]
  {}

  /** What the workers hold only changes when a task is taken or finished. */
  lemma HeldStep(s: State, a: Action)
    requires Enabled(s, a) && !a.TakesTask? && !a.FinishesTask?
    ensures Union(HeldBy, Step(s, a).workers) == Union(HeldBy, s.workers)
  {
    hide Union, Step, Enabled;
    var ws := Step(s, a).workers;
    if MovesWorker(s, a) {
      MovedWorker(s, a);
      MovedHolds(s, a);
      HeldMove(s.workers, a.w, ws[a.w]);
    } else {
      OtherWorkers(s, a);
      AwakeHolds(s.workers);
      UnionAppend(HeldBy, s.workers, Ready);
    }
  }

  lemma TakeMoves(q: seq<Task>, held: multiset<Task>, done: multiset<Task>, cleared: multiset<Task>)
    requires q != []
    ensures multiset(q[1..]) + (held + multiset{q[0]}) + done + cleared == multiset(q) + held + done + cleared
  {
    assert q == [q[0]] + q[1..];
  }

  lemma TakeStep(s: State, w: nat)
    requires Enabled(s, TakesTask(w))
    ensures s.queue != [] && w < |s.workers| && HeldBy(s.workers[w]) == multiset{}
    ensures var s' := Step(s, TakesTask(w));
            && s'.queue == s.queue[1..] && s'.workers == s.workers[w := Holding(s.queue[0])]
            && s'.done == s.done && s'.cleared == s.cleared && s'.accepted == s.accepted
  {}

  lemma ConservedTake(s: State, w: nat)
    requires Conserved(s) && Enabled(s, TakesTask(w))
    ensures s.queue != [] && Conserved(Step(s, TakesTask(w)))
  {
    hide Union, Enabled, Step;
    TakeStep(s, w);
    HeldMove(s.workers, w, Holding(s.queue[0]));
    TakeMoves(s.queue, Union(HeldBy, s.workers), multiset(s.done), multiset(s.cleared));
  }

  lemma FinishMoves(queued: multiset<Task>, held: multiset<Task>, done: seq<Task>, t: Task, cleared: multiset<Task>)
    ensures queued + held + multiset(done + [t]) + cleared == queued + (held + multiset{t}) + multiset(done) + cleared
  {}

  lemma FinishStep(s: State, w: nat)
    requires Enabled(s, FinishesTask(w))
    ensures w < |s.workers| && s.workers[w].Running? && HeldBy(s.workers[w]) == multiset{s.workers[w].task}
    ensures var s' := Step(s, FinishesTask(w));
            && s'.queue == s.queue && s'.workers == s.workers[w := Finished]
            && s'.done == s.done + [s.workers[w].task] && s'.cleared == s.cleared && s'.accepted == s.accepted
  {}

  lemma ConservedFinish(s: State, w: nat)
    requires Conserved(s) && Enabled(s, FinishesTask(w))
    ensures Conserved(Step(s, FinishesTask(w)))
  {
    hide Union, Enabled, Step;
    FinishStep(s, w);
    HeldMove(s.workers, w, Finished);
    FinishMoves(multiset(s.queue), Union(HeldBy, s.workers[w := Finished]), s.done, s.workers[w].task,
                multiset(s.cleared));
  }

  lemma ConservedEnqueue(s: State, c: nat)
    requires Conserved(s) && Enabled(s, AddEnqueues(c))
    ensures Conserved(Step(s, AddEnqueues(c)))
  {
    hide Union;
    assert seq(s.accepted + 1, i => i) == seq(s.accepted, i => i) + [s.accepted];
  }

  lemma ConservedClear(s: State, c: nat)
    requires Conserved(s) && Enabled(s, Clears(c))
    ensures Conserved(Step(s, Clears(c)))
  {
    hide Union;
  }

  lemma ConservedStep(s: State, a: Action)
    requires Conserved(s) && Enabled(s, a)
    ensures Conserved(Step(s, a))
  {
    if a.TakesTask? {
      ConservedTake(s, a.w);
    } else if a.FinishesTask? {
      ConservedFinish(s, a.w);
    } else if a.AddEnqueues? {
      ConservedEnqueue(s, a.c);
    } else if a.Clears? {
      ConservedClear(s, a.c);
    } else {
      HeldStep(s, a);
      var s' := Step(s, a);
      assert s'.queue == s.queue && s'.done == s.done && s'.cleared == s.cleared && s'.accepted == s.accepted;
    }
  }

  lemma CountedStep(s: State, a: Action)
    requires s.running == Sum(Counted, s.workers) && Enabled(s, a)
    ensures Step(s, a).running == Sum(Counted, Step(s, a).workers)
  {
    hide Sum;
    SumStep(Counted, s, a);
    AwakeCounts(s.workers);
  }

  /** How a step changes a sum over the workers. */
  lemma SumStep(f: Worker -> nat, s: State, a: Action)
    requires Enabled(s, a)
    ensures MovesWorker(s, a) ==>
              Sum(f, Step(s, a).workers) == Sum(f, s.workers) + f(Step(s, a).workers[a.w]) - f(s.workers[a.w])
    ensures a.AddMakesRoom? ==>
              Sum(f, Step(s, a).workers)
              == Sum(f, s.workers) + if |Step(s, a).workers| > |s.workers| then f(Ready) else 0
    ensures !MovesWorker(s, a) && !a.AddMakesRoom? && !a.FreeBroadcasts? ==> Step(s, a).workers == s.workers
  {
    if a.AddMakesRoom? {
      SumAppend(f, s.workers, Ready);
    } else if MovesWorker(s, a) {
      SumUpdate(f, s.workers, a.w, Step(s, a).workers[a.w]);
    }
  }

  lemma AttendedStep(s: State, a: Action)
    requires Attended(s) && Exclusive(s) && Ordered(s) && Enabled(s, a)
    ensures Attended(Step(s, a))
  {
    hide Sum, Exclusive, Unsignalled;
    if a.FreeAnnounces? || a.FreeBroadcasts? {
      assert Step(s, a).shutdown != No;
    } else {
      SumStep(Asleep, s, a);
      SumStep(Coming, s, a);
      if NoneWaits(s) {
        SumZero(Asleep, s.workers);
      }
      UnsignalledStep(s, a);
    }
  }

  /** Whether a signal is still to come only changes when an add enqueues or signals. */
  lemma UnsignalledByWorker(s: State, a: Action)
    requires Exclusive(s) && Enabled(s, a) && ByWorkers(a)
    ensures Unsignalled(Step(s, a)) == Unsignalled(s)
  {}

  lemma UnsignalledByAdder(s: State, a: Action)
    requires Exclusive(s) && Enabled(s, a) && ByAdders(a)
    ensures Unsignalled(Step(s, a)) == if a.AddEnqueues? then 1 else if a.AddSignals? then 0 else Unsignalled(s)
    ensures a.AddSignals? ==> Unsignalled(s) == 1
    ensures a.AddEnqueues? ==> Unsignalled(s) == 0
  {}

  lemma UnsignalledByClearer(s: State, a: Action)
    requires Exclusive(s) && Enabled(s, a) && ByClients(a) && !ByAdders(a)
    ensures Unsignalled(Step(s, a)) == Unsignalled(s)
  {}

  lemma UnsignalledByOwner(s: State, a: Action)
    requires Exclusive(s) && Enabled(s, a) && !ByWorkers(a) && !ByClients(a)
    ensures Unsignalled(Step(s, a)) == Unsignalled(s)
  {}

  lemma UnsignalledStep(s: State, a: Action)
    requires Exclusive(s) && Enabled(s, a)
    ensures Unsignalled(Step(s, a)) == if a.AddEnqueues? then 1 else if a.AddSignals? then 0 else Unsignalled(s)
    ensures a.AddSignals? ==> Unsignalled(s) == 1
    ensures a.AddEnqueues? ==> Unsignalled(s) == 0
  {
    hide Enabled, Step, Exclusive, Unsignalled;
    if ByWorkers(a) {
      UnsignalledByWorker(s, a);
    } else if ByAdders(a) {
      UnsignalledByAdder(s, a);
    } else if ByClients(a) {
      UnsignalledByClearer(s, a);
    } else {
      UnsignalledByOwner(s, a);
    }
  }

  lemma SizedByWorker(s: State, a: Action)
    requires Sized(s) && Exclusive(s) && s.running == Sum(Counted, s.workers) && Enabled(s, a) && ByWorkers(a)
    ensures Sized(Step(s, a))
  {}

  lemma SizedByAdder(s: State, a: Action)
    requires Sized(s) && Exclusive(s) && s.running == Sum(Counted, s.workers) && Enabled(s, a) && ByAdders(a)
    ensures Sized(Step(s, a))
  {}

  lemma SizedByClearer(s: State, a: Action)
    requires Sized(s) && Exclusive(s) && s.running == Sum(Counted, s.workers) && Enabled(s, a) && ByClients(a)
    requires !ByAdders(a)
    ensures Sized(Step(s, a))
  {}

  lemma SizedByOwner(s: State, a: Action)
    requires Sized(s) && Exclusive(s) && s.running == Sum(Counted, s.workers) && Enabled(s, a)
    requires !ByWorkers(a) && !ByClients(a)
    ensures Sized(Step(s, a))
  {}

  lemma SizedStep(s: State, a: Action)
    requires Sized(s) && Exclusive(s) && s.running == Sum(Counted, s.workers) && Enabled(s, a)
    ensures Sized(Step(s, a))
  {
    hide Enabled, Step, Sized, Exclusive, Sum;
    if ByWorkers(a) {
      SizedByWorker(s, a);
    } else if ByAdders(a) {
      SizedByAdder(s, a);
    } else if ByClients(a) {
      SizedByClearer(s, a);
    } else {
      SizedByOwner(s, a);
    }
  }

  lemma OrderedByWorker(s: State, a: Action)
    requires Ordered(s) && Exclusive(s) && Enabled(s, a) && ByWorkers(a)
    ensures Ordered(Step(s, a))
  {}

  lemma OrderedByAdder(s: State, a: Action)
    requires Ordered(s) && Exclusive(s) && Enabled(s, a) && ByAdders(a)
    ensures Ordered(Step(s, a))
  {}

  lemma OrderedByClearer(s: State, a: Action)
    requires Ordered(s) && Exclusive(s) && Enabled(s, a) && ByClients(a) && !ByAdders(a)
    ensures Ordered(Step(s, a))
  {}

  lemma OrderedByOwner(s: State, a: Action)
    requires Ordered(s) && Exclusive(s) && Enabled(s, a) && !ByWorkers(a) && !ByClients(a)
    ensures Ordered(Step(s, a))
  {}

  lemma OrderedStep(s: State, a: Action)
    requires Ordered(s) && Exclusive(s) && Enabled(s, a)
    ensures Ordered(Step(s, a))
  {
    hide Enabled, Step, Ordered, Exclusive;
    if ByWorkers(a) {
      OrderedByWorker(s, a);
    } else if ByAdders(a) {
      OrderedByAdder(s, a);
    } else if ByClients(a) {
      OrderedByClearer(s, a);
    } else {
      OrderedByOwner(s, a);
    }
  }

  lemma DrainedByWorker(s: State, a: Action)
    requires Drained(s) && Ordered(s) && Exclusive(s) && Enabled(s, a) && ByWorkers(a)
    ensures Drained(Step(s, a))
  {}

  lemma DrainedByAdder(s: State, a: Action)
    requires Drained(s) && Ordered(s) && Exclusive(s) && Enabled(s, a) && ByAdders(a)
    ensures Drained(Step(s, a))
  {}

  lemma DrainedByClearer(s: State, a: Action)
    requires Drained(s) && Ordered(s) && Exclusive(s) && Enabled(s, a) && ByClients(a) && !ByAdders(a)
    ensures Drained(Step(s, a))
  {}

  lemma DrainedByOwner(s: State, a: Action)
    requires Drained(s) && Ordered(s) && Exclusive(s) && Enabled(s, a) && !ByWorkers(a) && !ByClients(a)
    ensures Drained(Step(s, a))
  {}

  lemma DrainedStep(s: State, a: Action)
    requires Drained(s) && Ordered(s) && Exclusive(s) && Enabled(s, a)
    ensures Drained(Step(s, a))
  {
    hide Enabled, Step, Drained, Ordered, Exclusive;
    if ByWorkers(a) {
      DrainedByWorker(s, a);
    } else if ByAdders(a) {
      DrainedByAdder(s, a);
    } else if ByClients(a) {
      DrainedByClearer(s, a);
    } else {
      DrainedByOwner(s, a);
    }
  }

  lemma JoinsByWorker(s: State, a: Action)
    requires Joins(s) && Ordered(s) && Exclusive(s) && Enabled(s, a) && ByWorkers(a)
    ensures Joins(Step(s, a))
  {}

  lemma JoinsByAdder(s: State, a: Action)
    requires Joins(s) && Ordered(s) && Exclusive(s) && Enabled(s, a) && ByAdders(a)
    ensures Joins(Step(s, a))
  {}

  lemma JoinsByClearer(s: State, a: Action)
    requires Joins(s) && Ordered(s) && Exclusive(s) && Enabled(s, a) && ByClients(a) && !ByAdders(a)
    ensures Joins(Step(s, a))
  {}

  lemma JoinsByOwner(s: State, a: Action)
    requires Joins(s) && Ordered(s) && Exclusive(s) && Enabled(s, a) && !ByWorkers(a) && !ByClients(a)
    ensures Joins(Step(s, a))
  {}

  lemma JoinsStep(s: State, a: Action)
    requires Joins(s) && Ordered(s) && Exclusive(s) && Enabled(s, a)
    ensures Joins(Step(s, a))
  {
    hide Enabled, Step, Joins, Ordered, Exclusive;
    if ByWorkers(a) {
      JoinsByWorker(s, a);
    } else if ByAdders(a) {
      JoinsByAdder(s, a);
    } else if ByClients(a) {
      JoinsByClearer(s, a);
    } else {
      JoinsByOwner(s, a);
    }
  }

  lemma FifoStep(s: State, a: Action)
    requires Fifo(s) && Enabled(s, a)
    ensures Fifo(Step(s, a))
  {}

  lemma GoneByWorker(s: State, a: Action)
    requires Enabled(s, a) && ByWorkers(a)
    ensures AllGone(Step(s, a)) ==> AllGone(s) || a.WorkerLeaves?
    ensures AllGone(s) ==> AllGone(Step(s, a)) && !a.WorkerLeaves? && !a.TakesTask?
  {
    var ws, w := Step(s, a).workers, a.w;
    assert forall i | 0 <= i < |ws| && i != w :: ws[i] == s.workers[i];
    assert Gone(ws[w]) ==> a.WorkerLeaves? || a.WorkerExits?;
    assert Gone(s.workers[w]) ==> a.WorkerExits?;
  }

  lemma GoneByOthers(s: State, a: Action)
    requires Enabled(s, a) && !ByWorkers(a)
    ensures AllGone(Step(s, a)) ==> AllGone(s)
    ensures AllGone(s) ==> AllGone(Step(s, a)) || a.AddMakesRoom?
    ensures a.AddMakesRoom? && |Step(s, a).workers| > |s.workers| ==> !AllGone(Step(s, a))
    ensures a.AddMakesRoom? && |Step(s, a).workers| <= |s.workers| ==> Step(s, a).workers == s.workers
  {
    var ws := Step(s, a).workers;
    assert |ws| > |s.workers| ==> !Gone(ws[|s.workers|]);
    assert forall i | 0 <= i < |s.workers| :: Gone(ws[i]) <==> Gone(s.workers[i]);
  }

  lemma CountsStep(s: State, a: Action)
    requires Counts(s) && Ordered(s) && Enabled(s, a)
    ensures Counts(Step(s, a))
  {
    hide AllGone;
    if ByWorkers(a) {
      GoneByWorker(s, a);
    } else {
      GoneByOthers(s, a);
      if Step(s, a).workers == s.workers {
        SameWorkersGone(s, Step(s, a));
      }
    }
  }

  lemma SameWorkersGone(s: State, t: State)
    requires s.workers == t.workers
    ensures AllGone(s) <==> AllGone(t)
  {}

  lemma InvStep(s: State, a: Action)
    requires Inv(s) && Enabled(s, a)
    ensures Inv(Step(s, a))
  {
    hide Enabled, Step, Exclusive, Conserved, Attended, Sized, Ordered, Drained, Joins, Fifo, Counts, Sum;
    ExclusiveStep(s, a);
    ConservedStep(s, a);
    CountedStep(s, a);
    AttendedStep(s, a);
    SizedStep(s, a);
    OrderedStep(s, a);
    DrainedStep(s, a);
    JoinsStep(s, a);
    FifoStep(s, a);
    CountsStep(s, a);
  }

  lemma InvInit(maxThreads: nat, lazy: bool, callers: nat)
    requires maxThreads > 0
    ensures Inv(Init(maxThreads, lazy, callers))
    ensures |Init(maxThreads, lazy, callers).workers| == if lazy then 0 else maxThreads
  {
    var s := Init(maxThreads, lazy, callers);
    SumZero(Counted, s.workers);
    SumZero(Asleep, s.workers);
    UnionEmpty(HeldBy, s.workers);
    assert multiset(seq(0, i => i)) == multiset{};
  }

  // ---- every run -------------------------------------------------------------------

  /** The invariant holds after every run of every interleaving. */
  lemma {:induction false} InvRun(s: State, run: seq<Action>)
    requires Inv(s) && Legal(s, run)
    ensures Inv(After(s, run))
    decreases |run|
  {
    hide Enabled, Step, Inv;
    if run != [] {
      InvStep(s, run[0]);
      InvRun(Step(s, run[0]), run[1..]);
    }
  }

  lemma {:induction false} TicketsOnce(n: nat, t: Task)
    ensures multiset(seq(n, i => i))[t] == if t < n then 1 else 0
  {
    if n > 0 {
      TicketsOnce(n - 1, t);
      assert seq(n, i => i) == seq(n - 1, i => i) + [n - 1];
    }
  }

  /** After any run, each accepted task is queued once, or held by one worker, or completed once, or
      cleared once, and only one of these; no other task is anywhere. No more tasks run at a time
      than there are workers, and no more workers than allowed. */
  lemma EachTaskHasOneFate(maxThreads: nat, lazy: bool, callers: nat, run: seq<Action>, t: Task)
    requires maxThreads > 0 && Legal(Init(maxThreads, lazy, callers), run)
    ensures var s := After(Init(maxThreads, lazy, callers), run);
            && multiset(s.queue)[t] + Union(HeldBy, s.workers)[t] + multiset(s.done)[t] + multiset(s.cleared)[t]
               == (if t < s.accepted then 1 else 0)
            && 0 <= s.running <= |s.workers| <= maxThreads
            && (|s.workers| == 0 ==> s.queue == [])
  {
    var s0 := Init(maxThreads, lazy, callers);
    InvInit(maxThreads, lazy, callers);
    InvRun(s0, run);
    MaxKept(s0, run);
    var s := After(s0, run);
    hide Init, After, Legal, Exclusive, Attended, Ordered, Drained, Union, Sum;
    TicketsOnce(s.accepted, t);
    SumBounded(Counted, s.workers);
  }

  lemma {:induction false} MaxKept(s: State, run: seq<Action>)
    requires Legal(s, run)
    ensures After(s, run).maxThreads == s.maxThreads
    decreases |run|
  {
    if run != [] {
      MaxKept(Step(s, run[0]), run[1..]);
    }
  }

  /** No wakeup is lost: before shutdown, with the lock free and tasks queued, not all workers sleep;
      and if some do, as many others as there are queued tasks are on their way to the queue. */
  lemma NoLostWakeup(s: State)
    requires Inv(s) && s.shutdown == No && s.lock == Free && s.queue != []
    ensures exists w :: 0 <= w < |s.workers| && s.workers[w] != Waiting
    ensures Sum(Asleep, s.workers) > 0 ==> Sum(Coming, s.workers) >= |s.queue|
  {
    if Sum(Asleep, s.workers) == 0 {
      SumAtLeast(Asleep, s.workers, 0);
    } else {
      var w := SumWitness(Coming, s.workers);
    }
  }

  // ---- shutdown --------------------------------------------------------------------

  /** The tasks that a worker has ever taken. */
  ghost function Started(s: State): multiset<Task> {
    Union(HeldBy, s.workers) + multiset(s.done)
  }

  lemma StartedStep(s: State, a: Action)
    requires Enabled(s, a) && !a.TakesTask?
    ensures Started(Step(s, a)) == Started(s)
  {
    hide Union;
    if a.FinishesTask? {
      HeldMove(s.workers, a.w, Finished);
    } else {
      HeldStep(s, a);
    }
  }

  /** Under wait-current no task is taken once shutdown is set, in any run from there. */
  lemma {:induction false} WaitCurrentStartsNothing(s: State, run: seq<Action>)
    requires Inv(s) && s.shutdown == WaitCurrent && Legal(s, run)
    ensures Started(After(s, run)) == Started(s)
    decreases |run|
  {
    if run != [] {
      InvStep(s, run[0]);
      StartedStep(s, run[0]);
      StaysShut(s, run[0]);
      hide Enabled, Step, Inv, Started;
      WaitCurrentStartsNothing(Step(s, run[0]), run[1..]);
    }
  }

  lemma StaysShut(s: State, a: Action)
    requires Ordered(s) && Enabled(s, a) && s.shutdown != No
    ensures Step(s, a).shutdown == s.shutdown
  {}

  /** When all joins have returned after a wait-all shutdown, and no add took the lock after shutdown
      was set, nothing is queued or held: every task was completed once or cleared once. */
  lemma WaitAllDrains(s: State)
    requires Inv(s) && s.owner == Joined && s.shutdown == WaitAll && s.late == 0
    ensures s.queue == [] && Union(HeldBy, s.workers) == multiset{} && s.running == 0
    ensures multiset(s.done) + multiset(s.cleared) == multiset(seq(s.accepted, i => i))
  {
    assert forall w | 0 <= w < |s.workers| :: s.workers[w] == Exited;
    UnionEmpty(HeldBy, s.workers);
    SumZero(Counted, s.workers);
    if |s.workers| > 0 {
      assert Gone(s.workers[0]);
    }
  }

  /** When all joins have returned after a wait-all shutdown of a pool that is not lazy, what is left in
      the queue are the stranded tasks; every other one was completed once or cleared once. */
  lemma OnlyStrandedIsLeft(s: State)
    requires Inv(s) && s.owner == Joined && s.shutdown == WaitAll && !s.lazy
    ensures |s.queue| == s.stranded && Union(HeldBy, s.workers) == multiset{} && s.running == 0
    ensures multiset(s.queue) + multiset(s.done) + multiset(s.cleared) == multiset(seq(s.accepted, i => i))
  {
    assert forall w | 0 <= w < |s.workers| :: s.workers[w] == Exited;
    assert AllGone(s);
    UnionEmpty(HeldBy, s.workers);
    SumZero(Counted, s.workers);
  }

  /** A run of one worker and one caller of add: the add passes its unlocked test, the pool is shut down
      in wait-all mode, the worker leaves, and only then does the add take the lock. */
  function Script(i: nat): Action {
    match i
    case 0 => AddEnters(0)
    case 1 => FreeBegins(true)
    case 2 => FreeLocks
    case 3 => FreeAnnounces
    case 4 => FreeBroadcasts
    case 5 => FreeUnlocks
    case 6 => FreeLists
    case 7 => WorkerLocks(0)
    case 8 => WorkerLeaves(0)
    case 9 => WorkerExits(0)
    case 10 => AddLocks(0)
    case 11 => AddMakesRoom(0)
    case 12 => AddEnqueues(0)
    case 13 => AddSignals(0, 0)
    case 14 => AddUnlocks(0)
    case 15 => FreeJoins
    case _ => FreeEnds
  }

  /** The state before the i-th step. */
  function Scene(i: nat): State {
    var worker := if i <= 7 then Ready else if i == 8 then Checking else if i == 9 then Leaving else Exited;
    var client := if i == 0 || i > 14 then Idle else if i <= 10 then AddEntered else if i == 11 then AddLocked
                  else if i == 12 then AddRoom else if i == 13 then AddQueued else AddSignalled;
    var owner := if i <= 1 then Outside else if i == 2 then WantsLock else if i == 3 then HasLock
                 else if i <= 6 then Announced(i > 4, i > 5) else if i <= 15 then Joining(1, 1)
                 else if i == 16 then Joining(0, 1) else Joined;
    var lock := if 3 <= i <= 5 then ByOwner else if 8 <= i <= 9 then ByWorker(0)
                else if 11 <= i <= 14 then ByClient(0) else Free;
    var count := if i > 12 then 1 else 0;
    State(false, 1, [worker], [client], owner, i > 1, lock, if i > 12 then [0] else [],
          if i <= 3 then No else WaitAll, 0, count, [], [], if i > 10 then 1 else 0, count)
  }

  lemma EarlyScenes(i: nat)
    requires i < 7
    ensures Enabled(Scene(i), Script(i)) && Step(Scene(i), Script(i)) == Scene(i + 1)
  {}

  lemma LateScenes(i: nat)
    requires 7 <= i < 17
    ensures Enabled(Scene(i), Script(i)) && Step(Scene(i), Script(i)) == Scene(i + 1)
  {}

  lemma {:induction false} Play(i: nat) returns (run: seq<Action>)
    requires i <= 17
    ensures Legal(Scene(i), run) && After(Scene(i), run) == Scene(17)
    decreases 17 - i
  {
    hide Enabled, Step, Scene, Script;
    if i == 17 {
      run := [];
    } else {
      var rest := Play(i + 1);
      if i < 7 {
        EarlyScenes(i);
      } else {
        LateScenes(i);
      }
      run := [Script(i)] + rest;
      assert run[1..] == rest;
    }
  }

  /** An add that takes the lock when the last worker has left does strand its task. */
  lemma LateAddIsStranded() returns (run: seq<Action>)
    ensures Legal(Init(1, false, 1), run)
    ensures var s := After(Init(1, false, 1), run); s.owner == Joined && s.shutdown == WaitAll && s.queue == [0]
  {
    run := Play(0);
    assert Init(1, false, 1) == Scene(0);
  }

  // ---- termination -----------------------------------------------------------------

  function WorkerSteps(p: Worker): nat {
    match p
    case Exited => 0
    case Leaving => 1
    case Checking => 2
    case Ready => 3
    case Waiting => 4
    case Finished => 4
    case Running(_) => 5
    case Taken(_) => 6
    case Holding(_) => 7
  }

  function ClientSteps(p: Client): nat {
    match p
    case Idle => 0
    case AddSignalled => 1
    case AddQueued => 2
    case AddRoom => 9
    case AddLocked => 14
    case AddEntered => 15
    case ClearDone => 1
    case ClearLocked => 2
    case ClearEntered => 3
  }

  function OwnerSteps(o: Owner, workers: nat): int {
    match o
    case Announced(b, u) => workers + (if b then 0 else 1) + (if u then 0 else 1) + 2
    case Joining(left, _) => left + 1
    case _ => 0
  }

  /** A bound on the number of steps that are left once shutdown is set. */
  function StepsLeft(s: State): int {
    6 * |s.queue| + Sum(WorkerSteps, s.workers) + Sum(ClientSteps, s.clients) + OwnerSteps(s.owner, |s.workers|)
  }

  lemma ClientSum(s: State, a: Action)
    requires Enabled(s, a)
    ensures if ByClients(a)
            then Sum(ClientSteps, Step(s, a).clients)
                 == Sum(ClientSteps, s.clients) + ClientSteps(Step(s, a).clients[a.c]) - ClientSteps(s.clients[a.c])
            else Step(s, a).clients == s.clients
  {
    if ByClients(a) {
      SumUpdate(ClientSteps, s.clients, a.c, Step(s, a).clients[a.c]);
    }
  }

  lemma WorkerCounts(s: State, a: Action)
    requires s.shutdown != No && Enabled(s, a) && MovesWorker(s, a) && !a.AddSignals?
    ensures StepsLeft(Step(s, a)) < StepsLeft(s)
  {
    hide Sum;
    SumStep(WorkerSteps, s, a);
    ClientSum(s, a);
  }

  lemma ClientCounts(s: State, a: Action)
    requires s.shutdown != No && Enabled(s, a) && ByClients(a)
    ensures StepsLeft(Step(s, a)) < StepsLeft(s)
  {
    hide Sum;
    SumStep(WorkerSteps, s, a);
    ClientSum(s, a);
  }

  lemma OwnerCounts(s: State, a: Action)
    requires s.shutdown != No && Ordered(s) && Drained(s) && Enabled(s, a) && !MovesWorker(s, a) && !ByClients(a)
    ensures StepsLeft(Step(s, a)) < StepsLeft(s)
  {
    if a.FreeBroadcasts? {
      SumMonotone(WorkerSteps, Awake(s.workers), s.workers);
    }
  }

  /** Once shutdown is set, every step of every thread uses up part of a finite budget. */
  lemma StepCounts(s: State, a: Action)
    requires Inv(s) && s.shutdown != No && Enabled(s, a)
    ensures 0 <= StepsLeft(Step(s, a)) < StepsLeft(s)
  {
    hide Enabled, Step, Sum;
    InvStep(s, a);
    if ByClients(a) {
      ClientCounts(s, a);
    } else if MovesWorker(s, a) {
      WorkerCounts(s, a);
    } else {
      OwnerCounts(s, a);
    }
  }

  /** So a run from there is no longer than the budget. */
  lemma {:induction false} ShutdownIsBounded(s: State, run: seq<Action>)
    requires Inv(s) && s.shutdown != No && Legal(s, run)
    ensures |run| <= StepsLeft(s)
    decreases |run|
  {
    hide Enabled, Step, Inv, StepsLeft;
    if run != [] {
      InvStep(s, run[0]);
      StepCounts(s, run[0]);
      StaysShutUnder(s, run[0]);
      ShutdownIsBounded(Step(s, run[0]), run[1..]);
    } else {
      BudgetIsNat(s);
    }
  }

  lemma StaysShutUnder(s: State, a: Action)
    requires Inv(s) && Enabled(s, a) && s.shutdown != No
    ensures Step(s, a).shutdown == s.shutdown
  {
    hide Inv, Enabled, Step, Ordered;
    InvOrdered(s);
    StaysShut(s, a);
  }

  lemma InvOrdered(s: State)
    requires Inv(s)
    ensures Ordered(s)
  {
    hide Ordered;
  }

  lemma BudgetIsNat(s: State)
    requires Inv(s)
    ensures StepsLeft(s) >= 0
  {
    hide Sum;
  }

  /** As long as the joins have not all returned, some thread can go on, and it need not be woken
      spuriously: shutdown cannot deadlock. */
  lemma ShutdownGoesOn(s: State) returns (a: Action)
    requires Inv(s) && s.shutdown != No && s.owner != Joined
    ensures Enabled(s, a) && !a.WakesSpuriously?
  {
    hide Sum, Conserved, Attended, Sized, Fifo, Counts;
    if s.lock.ByWorker? {
      var w, p := s.lock.w, s.workers[s.lock.w];
      a := if p.Holding? then WorkerUnlocks(w) else if p.Leaving? then WorkerExits(w)
           else if MustLeave(s) then WorkerLeaves(w) else TakesTask(w);
    } else if s.lock.ByClient? {
      a := HolderGoesOn(s);
    } else if s.owner.Announced? {
      a := if !s.owner.broadcast then FreeBroadcasts else if !s.owner.unlocked then FreeUnlocks else FreeLists;
    } else if s.owner.left == 0 {
      a := FreeEnds;
    } else {
      var w := s.owner.left - 1;
      match s.workers[w]
      case Exited => a := FreeJoins;
      case Ready => a := WorkerLocks(w);
      case Taken(_) => a := StartsTask(w);
      case Running(_) => a := FinishesTask(w);
      case Finished => a := CountsDown(w);
    }
  }

  lemma HolderGoesOn(s: State) returns (a: Action)
    requires Exclusive(s) && s.lock.ByClient?
    ensures Enabled(s, a) && !a.WakesSpuriously?
  {
    var c := s.lock.c;
    match s.clients[c]
    case AddLocked => a := AddMakesRoom(c);
    case AddRoom => a := AddEnqueues(c);
    case AddSignalled => a := AddUnlocks(c);
    case ClearLocked => a := Clears(c);
    case ClearDone => a := ClearUnlocks(c);
    case AddQueued =>
      if NoneWaits(s) {
        a := AddSignals(c, 0);
      } else {
        var w :| 0 <= w < |s.workers| && s.workers[w] == Waiting;
        a := AddSignals(c, w);
      }
  }

  /** From every reachable state after the shutdown announcement, the joins can all be brought to
      return, and no run can put that off beyond the budget. */
  lemma {:induction false} ShutdownCompletes(s: State) returns (run: seq<Action>)
    requires Inv(s) && s.shutdown != No
    ensures Legal(s, run) && After(s, run).owner == Joined && |run| <= StepsLeft(s)
    decreases StepsLeft(s)
  {
    hide Enabled, Step, Inv, StepsLeft;
    BudgetIsNat(s);
    if s.owner == Joined {
      run := [];
    } else {
      var a := ShutdownGoesOn(s);
      InvStep(s, a);
      StepCounts(s, a);
      StaysShutUnder(s, a);
      var rest := ShutdownCompletes(Step(s, a));
      run := [a] + rest;
      assert run[1..] == rest;
    }
  }

  // ---- every run from a new pool ---------------------------------------------------

  ghost predicate LeadsTo(maxThreads: nat, lazy: bool, callers: nat, run: seq<Action>, s: State) {
    maxThreads > 0 && Legal(Init(maxThreads, lazy, callers), run) && After(Init(maxThreads, lazy, callers), run) == s
  }

  ghost predicate Reachable(s: State) {
    exists maxThreads, lazy, callers, run :: LeadsTo(maxThreads, lazy, callers, run, s)
  }

  lemma ReachableInv(s: State)
    requires Reachable(s)
    ensures Inv(s)
  {
    var maxThreads, lazy, callers, run :| LeadsTo(maxThreads, lazy, callers, run, s);
    InvInit(maxThreads, lazy, callers);
    InvRun(Init(maxThreads, lazy, callers), run);
  }

  lemma TakenBeforeQueued(s: State, t: Task, u: Task)
    requires Conserved(s) && Fifo(s) && Started(s)[t] > 0 && u in s.queue
    ensures t < u
  {
    hide Union;
    if s.accepted - |s.queue| <= t < s.accepted {
      LatestQueued(s, t);
    }
    TicketsOnce(s.accepted, t);
  }

  lemma LatestQueued(s: State, t: Task)
    requires Fifo(s) && s.accepted - |s.queue| <= t < s.accepted
    ensures t in s.queue
  {
    assert s.queue[t - (s.accepted - |s.queue|)] == t;
  }

  /** Tasks start in the order in which they were accepted: the one that a worker takes precedes all
      that stay queued, and follows all that any worker has ever taken. */
  lemma StartsInOrder(s: State, w: nat)
    requires Reachable(s) && Enabled(s, TakesTask(w))
    ensures s.queue != [] && Step(s, TakesTask(w)).workers[w] == Holding(s.queue[0])
    ensures forall i | 0 < i < |s.queue| :: s.queue[0] < s.queue[i]
    ensures forall t | Started(s)[t] > 0 :: t < s.queue[0]
  {
    hide Reachable, Inv, Started, Enabled, Step;
    ReachableInv(s);
    TakeStep(s, w);
    InvParts(s);
    forall t | Started(s)[t] > 0
      ensures t < s.queue[0]
    {
      TakenBeforeQueued(s, t, s.queue[0]);
    }
  }

  lemma InvParts(s: State)
    requires Inv(s)
    ensures Conserved(s) && Fifo(s)
  {}

  lemma ReachableWakes(s: State)
    requires Reachable(s) && s.shutdown == No && s.lock == Free && s.queue != []
    ensures exists w :: 0 <= w < |s.workers| && s.workers[w] != Waiting
    ensures Sum(Asleep, s.workers) > 0 ==> Sum(Coming, s.workers) >= |s.queue|
  {
    hide Reachable, Inv;
    ReachableInv(s);
    NoLostWakeup(s);
  }

  /** When the joins of a wait-all shutdown have returned: with no late add nothing is left; and in a pool
      that is not lazy, all that is left are the stranded tasks, with or without late adds. */
  lemma ReachableDrains(s: State)
    requires Reachable(s) && s.owner == Joined && s.shutdown == WaitAll && (s.late == 0 || !s.lazy)
    ensures s.late == 0 ==> s.queue == []
    ensures !s.lazy ==> |s.queue| == s.stranded
    ensures Union(HeldBy, s.workers) == multiset{} && s.running == 0
    ensures multiset(s.queue) + multiset(s.done) + multiset(s.cleared) == multiset(seq(s.accepted, i => i))
  {
    hide Reachable, Inv;
    ReachableInv(s);
    if s.late == 0 {
      WaitAllDrains(s);
    }
    if !s.lazy {
      OnlyStrandedIsLeft(s);
    }
  }

  /** From every state that a pool can be in once shutdown is announced, every run is bounded, and some
      run brings the joins to return. */
  lemma ReachableShutsDown(s: State, any: seq<Action>) returns (run: seq<Action>)
    requires Reachable(s) && s.shutdown != No && Legal(s, any)
    ensures |any| <= StepsLeft(s)
    ensures Legal(s, run) && After(s, run).owner == Joined && |run| <= StepsLeft(s)
  {
    hide Reachable, Inv, Legal, After, StepsLeft;
    ReachableInv(s);
    ShutdownIsBounded(s, any);
    run := ShutdownCompletes(s);
  }
}
