/** What the calls on a thread pool come to: which shutdown a call of `m_thpool_free` announces, in any run;
    and what each call, or each turn of a worker, does when no other thread comes between its steps. */
module ThreadPoolCalls {
  import opened Counting
  import opened ThreadPool
  import opened ThreadPoolSafety

  function Mode(all: bool): Shutdown {
    if all then WaitAll else WaitCurrent
  }

  // ---- what m_thpool_free announces ------------------------------------------------

  lemma OthersLeaveOwner(s: State, a: Action)
    requires Enabled(s, a) && (ByWorkers(a) || ByClients(a))
    ensures var t := Step(s, a); t.owner == s.owner && t.waitAll == s.waitAll && t.shutdown == s.shutdown
  {}

  lemma OwnerGoesOn(s: State, a: Action)
    requires Enabled(s, a) && !ByWorkers(a) && !ByClients(a) && s.owner != Outside
    ensures var t := Step(s, a);
            && t.owner != Outside && t.waitAll == s.waitAll
            && t.shutdown == if a == FreeAnnounces then Mode(s.waitAll) else s.shutdown
  {}

  lemma FreeingStep(s: State, a: Action, all: bool)
    requires Enabled(s, a) && s.owner != Outside && s.waitAll == all && s.shutdown in {No, Mode(all)}
    ensures var t := Step(s, a); t.owner != Outside && t.waitAll == all && t.shutdown in {No, Mode(all)}
  {
    hide Enabled, Step, ByWorkers, ByClients;
    if ByWorkers(a) || ByClients(a) {
      OthersLeaveOwner(s, a);
    } else {
      OwnerGoesOn(s, a);
    }
  }

  lemma {:induction false} Freeing(s: State, run: seq<Action>, all: bool)
    requires Legal(s, run) && s.owner != Outside && s.waitAll == all && s.shutdown in {No, Mode(all)}
    ensures After(s, run).owner != Outside && After(s, run).shutdown in {No, Mode(all)}
    decreases |run|
  {
    hide Enabled, Step;
    if run != [] {
      FreeingStep(s, run[0], all);
      Freeing(Step(s, run[0]), run[1..], all);
    }
  }

  lemma FreeBegun(s: State, all: bool)
    requires Inv(s) && Enabled(s, FreeBegins(all))
    ensures var t := Step(s, FreeBegins(all)); t.owner != Outside && t.waitAll == all && t.shutdown == No
  {
    hide Exclusive, Conserved, Attended, Sized, Drained, Joins, Fifo, Counts;
  }

  /** In a run with the call `m_thpool_free(&pool, all)` the shutdown, once announced, is the one asked for. */
  lemma {:induction false} FreeDecides(s: State, run: seq<Action>, i: nat, all: bool)
    requires Inv(s) && Legal(s, run) && i < |run| && run[i] == FreeBegins(all)
    ensures After(s, run).shutdown in {No, if all then WaitAll else WaitCurrent}
    ensures After(s, run).owner != Outside
    decreases i
  {
    hide Enabled, Step, Inv;
    if i == 0 {
      FreeBegun(s, all);
      Freeing(Step(s, run[0]), run[1..], all);
    } else {
      InvStep(s, run[0]);
      FreeDecides(Step(s, run[0]), run[1..], i - 1, all);
    }
  }

  lemma {:induction false} Cut(s: State, run: seq<Action>, k: nat)
    requires Legal(s, run) && k <= |run|
    ensures Legal(s, run[..k]) && Legal(After(s, run[..k]), run[k..])
    ensures After(After(s, run[..k]), run[k..]) == After(s, run)
    decreases k
  {
    hide Enabled, Step;
    if k == 0 {
      assert run[..0] == [] && run[0..] == run;
    } else {
      Cut(Step(s, run[0]), run[1..], k - 1);
      assert run[..k][1..] == run[1..][..k - 1] && run[k..] == run[1..][k - 1..];
    }
  }

  lemma AnnouncedStep(s: State)
    requires Enabled(s, FreeAnnounces)
    ensures Step(s, FreeAnnounces).shutdown != No
  {}

  lemma NotTaken(s: State, a: Action)
    requires Inv(s) && s.shutdown == WaitCurrent && Enabled(s, a)
    ensures !a.TakesTask? && Step(s, a).shutdown == WaitCurrent
  {
    hide Exclusive, Conserved, Attended, Sized, Drained, Joins, Fifo, Counts;
    StaysShut(s, a);
  }

  lemma {:induction false} NothingTaken(s: State, run: seq<Action>, k: nat)
    requires Inv(s) && s.shutdown == WaitCurrent && Legal(s, run) && k < |run|
    ensures !run[k].TakesTask?
    decreases k
  {
    hide Enabled, Step, Inv;
    NotTaken(s, run[0]);
    if k > 0 {
      InvStep(s, run[0]);
      NothingTaken(Step(s, run[0]), run[1..], k - 1);
    }
  }

  /** After `m_thpool_free(&pool, false)` has announced itself no worker takes a task, in any run from a
      new pool: what is queued then stays queued, unless it is cleared. */
  lemma FreeCurrentStartsNothing(
      maxThreads: nat, lazy: bool, callers: nat, run: seq<Action>, i: nat, j: nat, k: nat)
    requires maxThreads > 0 && Legal(Init(maxThreads, lazy, callers), run)
    requires i < j < k < |run| && run[i] == FreeBegins(false) && run[j] == FreeAnnounces
    ensures !run[k].TakesTask?
  {
    hide Enabled, Step, Inv, Init;
    var s0 := Init(maxThreads, lazy, callers);
    InvInit(maxThreads, lazy, callers);
    Cut(s0, run, j + 1);
    var before := run[..j + 1];
    InvRun(s0, before);
    FreeDecides(s0, before, i, false);
    Cut(s0, before, j);
    assert before[j..] == [FreeAnnounces];
    LastStep(After(s0, before[..j]), FreeAnnounces);
    AnnouncedStep(After(s0, before[..j]));
    NothingTaken(After(s0, before), run[j + 1..], k - j - 1);
  }

  lemma LastStep(s: State, a: Action)
    requires Legal(s, [a])
    ensures Enabled(s, a) && After(s, [a]) == Step(s, a)
  {
    assert [a][1..] == [];
    assert After(Step(s, a), []) == Step(s, a);
  }

  /** When the joins of `m_thpool_free(&pool, true)` have returned, in any run from a new pool in which no
      add took the lock after the announcement, every accepted task was completed or cleared, and nothing
      is left. */
  lemma FreeAllDrains(maxThreads: nat, lazy: bool, callers: nat, run: seq<Action>, i: nat)
    requires maxThreads > 0 && Legal(Init(maxThreads, lazy, callers), run)
    requires i < |run| && run[i] == FreeBegins(true)
    ensures var s := After(Init(maxThreads, lazy, callers), run);
            s.owner == Joined && s.late == 0 ==>
              && s.queue == [] && s.running == 0
              && multiset(s.done) + multiset(s.cleared) == multiset(seq(s.accepted, t => t))
  {
    hide Enabled, Step, Inv, Init;
    var s0 := Init(maxThreads, lazy, callers);
    InvInit(maxThreads, lazy, callers);
    InvRun(s0, run);
    FreeDecides(s0, run, i, true);
    var s := After(s0, run);
    if s.owner == Joined && s.late == 0 {
      JoinedIsShut(s);
      WaitAllDrains(s);
    }
  }

  lemma JoinedIsShut(s: State)
    requires Inv(s) && s.owner == Joined
    ensures s.shutdown != No
  {
    hide Exclusive, Conserved, Attended, Sized, Drained, Joins, Fifo, Counts;
  }

  lemma {:induction false} CountedAre(ws: seq<Worker>)
    ensures Sum(Counted, ws) == |set w | 0 <= w < |ws| && (ws[w].Running? || ws[w].Finished?)|
  {
    var all := set w | 0 <= w < |ws| && (ws[w].Running? || ws[w].Finished?);
    if ws == [] {
      assert all == {};
    } else {
      var last := |ws| - 1;
      CountedAre(ws[..last]);
      var before := set w | 0 <= w < last && (ws[..last][w].Running? || ws[..last][w].Finished?);
      assert all == before + if ws[last].Running? || ws[last].Finished? then {last} else {};
    }
  }

  /** In every run `running_tasks` is the number of workers between the two updates of it. */
  lemma RunningCounts(s: State)
    requires Reachable(s)
    ensures s.running == |set w | 0 <= w < |s.workers| && (s.workers[w].Running? || s.workers[w].Finished?)|
  {
    hide Reachable, Inv;
    ReachableInv(s);
    InvCounts(s);
    CountedAre(s.workers);
  }

  lemma InvCounts(s: State)
    requires Inv(s)
    ensures s.running == Sum(Counted, s.workers)
  {
    hide Exclusive, Conserved, Attended, Sized, Ordered, Drained, Joins, Fifo, Counts;
  }

  // ---- calls that nothing interrupts -----------------------------------------------

  /** The run is legal and leads from one state to the other. */
  predicate Leads(s: State, run: seq<Action>, t: State) {
    Legal(s, run) && After(s, run) == t
  }

  predicate Does(s: State, a: Action, t: State) {
    Enabled(s, a) && Step(s, a) == t
  }

  lemma Two(s: State, a: Action, s1: State, b: Action, s2: State)
    requires Does(s, a, s1) && Does(s1, b, s2)
    ensures Leads(s, [a, b], s2)
  {
    hide Enabled, Step;
    assert [a, b][1..] == [b] && [b][1..] == [];
    assert Legal(s1, [b]) && After(s1, [b]) == After(s2, []);
  }

  lemma Three(s: State, a: Action, s1: State, b: Action, s2: State, c: Action, s3: State)
    requires Does(s, a, s1) && Does(s1, b, s2) && Does(s2, c, s3)
    ensures Leads(s, [a, b, c], s3)
  {
    hide Enabled, Step;
    Two(s1, b, s2, c, s3);
    assert [a, b, c][1..] == [b, c];
  }

  lemma {:induction false} InTurn(s: State, run: seq<Action>, t: State, rest: seq<Action>, u: State)
    requires Leads(s, run, t) && Leads(t, rest, u)
    ensures Leads(s, run + rest, u)
    decreases |run|
  {
    hide Enabled, Step;
    if run == [] {
      assert run + rest == rest;
    } else {
      assert (run + rest)[1..] == run[1..] + rest;
      InTurn(Step(s, run[0]), run[1..], t, rest, u);
    }
  }

  lemma TakesOne(s: State, w: nat) returns (t: State)
    requires w < |s.workers| && s.workers[w] == Ready && s.lock == Free
    requires s.queue != [] && s.shutdown != WaitCurrent
    ensures t == s.(workers := s.workers[w := Taken(s.queue[0])], queue := s.queue[1..])
    ensures Leads(s, [WorkerLocks(w), TakesTask(w), WorkerUnlocks(w)], t)
  {
    hide Leads;
    var s1 := Step(s, WorkerLocks(w));
    var s2 := Step(s1, TakesTask(w));
    t := Step(s2, WorkerUnlocks(w));
    assert t.workers == s.workers[w := Taken(s.queue[0])];
    Three(s, WorkerLocks(w), s1, TakesTask(w), s2, WorkerUnlocks(w), t);
  }

  lemma RunsOne(s: State, w: nat) returns (t: State)
    requires w < |s.workers| && s.workers[w].Taken?
    ensures t == s.(workers := s.workers[w := Ready], done := s.done + [s.workers[w].task])
    ensures Leads(s, [StartsTask(w), FinishesTask(w), CountsDown(w)], t)
  {
    hide Leads;
    var s1 := Step(s, StartsTask(w));
    var s2 := Step(s1, FinishesTask(w));
    t := Step(s2, CountsDown(w));
    assert t.workers == s.workers[w := Ready];
    Three(s, StartsTask(w), s1, FinishesTask(w), s2, CountsDown(w), t);
  }

  /** A worker that finds a task takes the first, runs it to its end, and is ready again. */
  lemma WorkerTurn(s: State, w: nat)
    requires w < |s.workers| && s.workers[w] == Ready && s.lock == Free
    requires s.queue != [] && s.shutdown != WaitCurrent
    ensures Leads(s, [WorkerLocks(w), TakesTask(w), WorkerUnlocks(w), StartsTask(w), FinishesTask(w), CountsDown(w)],
                  s.(queue := s.queue[1..], done := s.done + [s.queue[0]]))
  {
    hide Leads;
    var t := TakesOne(s, w);
    var u := RunsOne(t, w);
    assert u.workers == s.workers;
    InTurn(s, [WorkerLocks(w), TakesTask(w), WorkerUnlocks(w)], t, [StartsTask(w), FinishesTask(w), CountsDown(w)], u);
    assert [WorkerLocks(w), TakesTask(w), WorkerUnlocks(w)] + [StartsTask(w), FinishesTask(w), CountsDown(w)]
        == [WorkerLocks(w), TakesTask(w), WorkerUnlocks(w), StartsTask(w), FinishesTask(w), CountsDown(w)];
  }

  /** A worker that finds no task goes to sleep and gives the lock back; a spurious wakeup takes it back to
      where it was. */
  lemma WorkerSleeps(s: State, w: nat)
    requires w < |s.workers| && s.workers[w] == Ready && s.lock == Free && s.queue == [] && s.shutdown == No
    ensures Leads(s, [WorkerLocks(w), WorkerWaits(w)], s.(workers := s.workers[w := Waiting]))
    ensures Leads(s, [WorkerLocks(w), WorkerWaits(w), WakesSpuriously(w)], s)
  {
    hide Leads;
    var s1, s2 := Step(s, WorkerLocks(w)), s.(workers := s.workers[w := Waiting]);
    assert Step(s1, WorkerWaits(w)).workers == s2.workers;
    assert Step(s2, WakesSpuriously(w)).workers == s.workers;
    Two(s, WorkerLocks(w), s1, WorkerWaits(w), s2);
    Three(s, WorkerLocks(w), s1, WorkerWaits(w), s2, WakesSpuriously(w), s);
  }

  /** A worker exits after shutdown, at once or when nothing is queued, as was asked for. */
  lemma WorkerEnds(s: State, w: nat)
    requires w < |s.workers| && s.workers[w] == Ready && s.lock == Free
    requires s.shutdown == WaitCurrent || (s.shutdown == WaitAll && s.queue == [])
    ensures Leads(s, [WorkerLocks(w), WorkerLeaves(w), WorkerExits(w)], s.(workers := s.workers[w := Exited]))
  {
    hide Leads;
    var s1 := Step(s, WorkerLocks(w));
    var s2, s3 := Step(s1, WorkerLeaves(w)), s.(workers := s.workers[w := Exited]);
    assert Step(s2, WorkerExits(w)).workers == s3.workers;
    Three(s, WorkerLocks(w), s1, WorkerLeaves(w), s2, WorkerExits(w), s3);
  }

  /** The threads when an add enqueues. */
  function Grown(s: State): seq<Worker> {
    if s.lazy && s.running >= |s.workers| && |s.workers| < s.maxThreads then s.workers + [Ready] else s.workers
  }

  /** The threads when it has signalled: one of those that sleep is awake, if there is any. */
  predicate Signalled(ws: seq<Worker>, w: nat, ws': seq<Worker>) {
    if exists i | 0 <= i < |ws| :: ws[i] == Waiting
    then w < |ws| && ws[w] == Waiting && ws' == ws[w := Ready]
    else ws' == ws
  }

  lemma NobodyStranded(s: State)
    requires Inv(s) && s.shutdown == No
    ensures s.stranded == 0 && (AllGone(s) ==> s.lazy && s.workers == [] && s.running == 0 && s.maxThreads > 0)
  {
    hide Exclusive, Conserved, Attended, Ordered, Joins, Fifo;
    if |s.workers| > 0 {
      assert !Gone(s.workers[0]);
    }
  }

  lemma AddPrepares(s: State, c: nat) returns (t: State)
    requires ClientAt(s, c, Idle) && s.lock == Free && s.shutdown == No && s.stranded == 0
    ensures t == s.(clients := s.clients[c := AddRoom], lock := ByClient(c), workers := Grown(s))
    ensures Leads(s, [AddEnters(c), AddLocks(c), AddMakesRoom(c)], t)
  {
    hide Leads;
    var s1 := Step(s, AddEnters(c));
    var s2 := Step(s1, AddLocks(c));
    t := Step(s2, AddMakesRoom(c));
    assert t.clients == s.clients[c := AddRoom];
    Three(s, AddEnters(c), s1, AddLocks(c), s2, AddMakesRoom(c), t);
  }

  lemma AddQueues(s: State, c: nat) returns (t: State)
    requires ClientAt(s, c, AddRoom) && !AllGone(s)
    ensures t == s.(clients := s.clients[c := AddQueued], queue := s.queue + [s.accepted], accepted := s.accepted + 1)
    ensures Does(s, AddEnqueues(c), t)
  {
    hide AllGone;
    t := Step(s, AddEnqueues(c));
  }

  lemma AddDelivers(s: State, c: nat, w: nat, ws: seq<Worker>) returns (t: State)
    requires ClientAt(s, c, AddRoom) && Signalled(s.workers, w, ws) && !AllGone(s)
    ensures t == s.(clients := s.clients[c := Idle], lock := Free, workers := ws,
                    queue := s.queue + [s.accepted], accepted := s.accepted + 1)
    ensures Leads(s, [AddEnqueues(c), AddSignals(c, w), AddUnlocks(c)], t)
  {
    hide Leads, AllGone;
    var s1 := AddQueues(s, c);
    var s2 := Step(s1, AddSignals(c, w));
    t := Step(s2, AddUnlocks(c));
    assert t.clients == s.clients[c := Idle];
    Three(s, AddEnqueues(c), s1, AddSignals(c, w), s2, AddUnlocks(c), t);
  }

  /** `m_thpool_add`: the task is queued last, under the next number; a lazy pool starts one thread exactly
      when it has fewer than it may and all that it has are running a task; and one of the sleeping
      workers is woken, if there is any. */
  lemma AddCall(s: State, c: nat, w: nat, grown: seq<Worker>, ws: seq<Worker>)
    requires Inv(s) && ClientAt(s, c, Idle) && s.lock == Free && s.shutdown == No
    requires grown == if s.lazy && s.running >= |s.workers| && |s.workers| < s.maxThreads
                      then s.workers + [Ready] else s.workers
    requires if exists i | 0 <= i < |grown| :: grown[i] == Waiting
             then w < |grown| && grown[w] == Waiting && ws == grown[w := Ready] else ws == grown
    ensures Leads(s, [AddEnters(c), AddLocks(c), AddMakesRoom(c), AddEnqueues(c), AddSignals(c, w), AddUnlocks(c)],
                  s.(workers := ws, queue := s.queue + [s.accepted], accepted := s.accepted + 1))
  {
    hide Leads, Inv;
    NobodyStranded(s);
    assert grown == Grown(s) && Signalled(grown, w, ws);
    hide Signalled;
    var t := AddPrepares(s, c);
    assert !AllGone(t) by {
      if s.workers == [] {
        assert !Gone(t.workers[0]);
      } else {
        var i :| 0 <= i < |s.workers| && !Gone(s.workers[i]);
        assert t.workers[i] == s.workers[i];
      }
    }
    var u := AddDelivers(t, c, w, ws);
    assert u.clients == s.clients;
    InTurn(s, [AddEnters(c), AddLocks(c), AddMakesRoom(c)], t, [AddEnqueues(c), AddSignals(c, w), AddUnlocks(c)], u);
    assert [AddEnters(c), AddLocks(c), AddMakesRoom(c)] + [AddEnqueues(c), AddSignals(c, w), AddUnlocks(c)]
        == [AddEnters(c), AddLocks(c), AddMakesRoom(c), AddEnqueues(c), AddSignals(c, w), AddUnlocks(c)];
  }

  lemma ClearTakesLock(s: State, c: nat) returns (t: State)
    requires ClientAt(s, c, Idle) && s.lock == Free && s.shutdown == No
    ensures t == s.(clients := s.clients[c := ClearLocked], lock := ByClient(c))
    ensures Leads(s, [ClearEnters(c), ClearLocks(c)], t)
  {
    hide Leads;
    var s1 := Step(s, ClearEnters(c));
    t := Step(s1, ClearLocks(c));
    assert t.clients == s.clients[c := ClearLocked];
    Two(s, ClearEnters(c), s1, ClearLocks(c), t);
  }

  lemma ClearDrops(s: State, c: nat) returns (t: State)
    requires ClientAt(s, c, ClearLocked)
    ensures t == s.(clients := s.clients[c := Idle], lock := Free, queue := [], cleared := s.cleared + s.queue,
                    stranded := 0)
    ensures Leads(s, [Clears(c), ClearUnlocks(c)], t)
  {
    hide Leads;
    var s1 := Step(s, Clears(c));
    t := Step(s1, ClearUnlocks(c));
    assert t.clients == s.clients[c := Idle];
    Two(s, Clears(c), s1, ClearUnlocks(c), t);
  }

  /** `m_thpool_clear`: everything queued is dropped, and nothing else changes. */
  lemma ClearCall(s: State, c: nat)
    requires Inv(s) && ClientAt(s, c, Idle) && s.lock == Free && s.shutdown == No
    ensures Leads(s, [ClearEnters(c), ClearLocks(c), Clears(c), ClearUnlocks(c)],
                  s.(queue := [], cleared := s.cleared + s.queue))
  {
    hide Leads, Inv;
    NobodyStranded(s);
    var t := ClearTakesLock(s, c);
    var u := ClearDrops(t, c);
    assert u.clients == s.clients;
    InTurn(s, [ClearEnters(c), ClearLocks(c)], t, [Clears(c), ClearUnlocks(c)], u);
    assert [ClearEnters(c), ClearLocks(c)] + [Clears(c), ClearUnlocks(c)]
        == [ClearEnters(c), ClearLocks(c), Clears(c), ClearUnlocks(c)];
  }

  lemma FreeTakesLock(s: State, all: bool) returns (t: State)
    requires s.owner == Outside && s.lock == Free
    ensures t == s.(owner := Announced(false, false), waitAll := all, lock := ByOwner, shutdown := Mode(all))
    ensures Leads(s, [FreeBegins(all), FreeLocks, FreeAnnounces], t)
  {
    hide Leads;
    var s1 := Step(s, FreeBegins(all));
    var s2 := Step(s1, FreeLocks);
    t := Step(s2, FreeAnnounces);
    Three(s, FreeBegins(all), s1, FreeLocks, s2, FreeAnnounces, t);
  }

  lemma FreeReleases(s: State, a: Action, b: Action) returns (t: State)
    requires s.owner == Announced(false, false)
    requires (a, b) in {(FreeUnlocks, FreeBroadcasts), (FreeBroadcasts, FreeUnlocks)}
    ensures t == s.(owner := Joining(|s.workers|, |s.workers|), lock := Free, workers := Awake(s.workers))
    ensures Leads(s, [a, b, FreeLists], t)
  {
    hide Leads, Awake;
    var s1 := Step(s, a);
    var s2 := Step(s1, b);
    t := Step(s2, FreeLists);
    Three(s, a, s1, b, s2, FreeLists, t);
  }

  /** `m_thpool_free` up to its joins: the shutdown asked for is announced, every sleeping worker is awake, and
      all threads are to be joined; the broadcast may come before or after the unlock. */
  lemma FreeCall(s: State, all: bool, a: Action, b: Action) returns (t: State)
    requires s.owner == Outside && s.lock == Free
    requires (a, b) in {(FreeUnlocks, FreeBroadcasts), (FreeBroadcasts, FreeUnlocks)}
    ensures Leads(s, [FreeBegins(all), FreeLocks, FreeAnnounces, a, b, FreeLists], t)
    ensures t == s.(owner := Joining(|s.workers|, |s.workers|), waitAll := all, workers := t.workers,
                    shutdown := if all then WaitAll else WaitCurrent)
    ensures |t.workers| == |s.workers|
    ensures forall w | 0 <= w < |s.workers| :: t.workers[w] == if s.workers[w] == Waiting then Ready else s.workers[w]
  {
    hide Leads;
    var u := FreeTakesLock(s, all);
    t := FreeReleases(u, a, b);
    InTurn(s, [FreeBegins(all), FreeLocks, FreeAnnounces], u, [a, b, FreeLists], t);
    assert [FreeBegins(all), FreeLocks, FreeAnnounces] + [a, b, FreeLists]
        == [FreeBegins(all), FreeLocks, FreeAnnounces, a, b, FreeLists];
  }
}
