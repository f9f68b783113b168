/** The life of the modules of one context. A hook runs in the middle of a runtime call and may itself
    call the runtime, so the calls in progress form a stack of hooks, and every step is a call that is
    made, or the return of the innermost hook. Calls that are refused by a guard or for want of a token
    change nothing and are not steps; calls on bound modules are steps like any other. */
module Lifecycle {
  import opened States
  import opened Counting
  import opened Options

  type Name = nat

  datatype Entry = Entry(name: Name, allowReplace: bool, persist: bool)

  datatype Mod = Mod(entry: Entry, state: ModState)

  /** A hook in progress. That of on_stop knows whether a deregistration goes on after it, and whether
      the registration of a replacement does. */
  datatype Hook = OnEval(m: nat) | OnStart(m: nat) | OnStop(m: nat, dereg: bool, next: Option<Entry>)

  datatype State = State(
    mods: seq<Mod>,                // all that were ever registered
    registered: map<Name, nat>,
    running: int,                  // running_modules
    looping: bool, quit: bool,
    hooks: seq<Hook>)

  /** The outcome of the poll plugin and of the pipe is part of a step that asks them. */
  datatype Action =
    | Register(entry: Entry) | Deregister(m: nat) | Evaluate(m: nat)
    | Start(m: nat, pollOk: bool) | Pause(m: nat, pollOk: bool) | Resume(m: nat, pollOk: bool) | Stop(m: nat)
    | Return(answer: bool, pollOk: bool)
    | LoopStart | Quit | LoopStop

  function Init(): State {
    State([], map[], 0, false, false, [])
  }

  /** A module is registered under its own name, and is neither a zombie nor about to become one. */
  ghost predicate Names(s: State, n: Name)
    requires n in s.registered
  {
    && s.registered[n] < |s.mods|
    && s.mods[s.registered[n]].entry.name == n && s.mods[s.registered[n]].state != Zombie
    && forall i | 0 <= i < |s.hooks| && s.hooks[i].OnStop? && s.hooks[i].dereg :: s.hooks[i].m != s.registered[n]
  }

  ghost predicate Valid(s: State) {
    && (forall n | n in s.registered :: Names(s, n))
    && (forall i | 0 <= i < |s.hooks| :: s.hooks[i].m < |s.mods|)
  }

  predicate In(s: State, m: nat, st: ModState) {
    m < |s.mods| && s.mods[m].state == st
  }

  predicate IsRegistered(s: State, m: nat) {
    m < |s.mods| && s.mods[m].entry.name in s.registered && s.registered[s.mods[m].entry.name] == m
  }

  /** The condition of the blocking loop. */
  predicate LoopGoesOn(s: State) {
    !s.quit && s.running > 0
  }

  predicate Enabled(s: State, a: Action) {
    match a
    case Register(_) => true
    case Deregister(m) => m < |s.mods| && s.mods[m].state != Zombie
    case Evaluate(m) => s.looping && IsRegistered(s, m) && In(s, m, Idle)
    case Start(m, _) => In(s, m, Idle) || In(s, m, Stopped)
    case Pause(m, _) => In(s, m, Running)
    case Resume(m, _) => In(s, m, Paused)
    case Stop(m) => In(s, m, Running) || In(s, m, Paused)
    case Return(_, _) => s.hooks != []
    case LoopStart => !s.looping
    case Quit => s.looping
    case LoopStop => s.looping && !LoopGoesOn(s)
  }

  function Becomes(s: State, m: nat, st: ModState): State
    requires m < |s.mods|
  {
    s.(mods := s.mods[m := s.mods[m].(state := st)])
  }

  /** `start`: count the module as running, and call on_start unless it is a resume. */
  function Begin(s: State, m: nat, starting: bool, pollOk: bool): State
    requires m < |s.mods|
  {
    if !pollOk then s
    else Becomes(s, m, Running).(running := s.running + 1,
                                 hooks := if starting then s.hooks + [OnStart(m)] else s.hooks)
  }

  /** `stop` for good: call on_stop. It never fails, because the sources are not asked to leave the
      poll plugin but freed. */
  function Halt(s: State, m: nat, dereg: bool, next: Option<Entry>): State
    requires m < |s.mods|
  {
    Becomes(s, m, Stopped).(running := if s.mods[m].state == Running then s.running - 1 else s.running,
                            hooks := s.hooks + [OnStop(m, dereg, next)])
  }

  /** `mod_deregister`, up to the on_stop hook. */
  function Remove(s: State, m: nat, next: Option<Entry>): State
    requires m < |s.mods|
  {
    if (s.mods[m].entry.persist && s.looping) || s.mods[m].entry.name !in s.registered then s
    else Halt(s.(registered := s.registered - {s.mods[m].entry.name}), m, true, next)
  }

  /** The end of `m_mod_register`: the name may have been taken again by the replaced module's hook. */
  function Add(s: State, e: Entry): State {
    if e.name in s.registered then s
    else s.(mods := s.mods + [Mod(e, Idle)], registered := s.registered[e.name := |s.mods|])
  }

  function Returned(s: State, h: Hook, answer: bool, pollOk: bool): State
    requires h.m < |s.mods|
  {
    match h
    case OnEval(m) => if answer && s.mods[m].state != Zombie then Begin(s, m, true, pollOk) else s
    case OnStart(m) => if answer || s.mods[m].state == Zombie then s else Halt(s, m, false, None)
    case OnStop(m, dereg, next) =>
      var gone := if dereg then Becomes(s, m, Zombie) else s;
      if next.Some? then Add(gone, next.value) else gone
  }

  function Step(s: State, a: Action): State
    requires Valid(s) && Enabled(s, a)
  {
    match a
    case Register(e) =>
      if e.name !in s.registered then Add(s, e)
      else if !s.mods[s.registered[e.name]].entry.allowReplace then s
      else Remove(s, s.registered[e.name], Some(e))
    case Deregister(m) => Remove(s, m, None)
    case Evaluate(m) => s.(hooks := s.hooks + [OnEval(m)])
    case Start(m, ok) => Begin(s, m, true, ok)
    case Pause(m, ok) => if ok then Becomes(s, m, Paused).(running := s.running - 1) else s
    case Resume(m, ok) => Begin(s, m, false, ok)
    case Stop(m) => Halt(s, m, false, None)
    case Return(answer, ok) =>
      var top := |s.hooks| - 1;
      Returned(s.(hooks := s.hooks[..top]), s.hooks[top], answer, ok)
    case LoopStart => s.(looping := true, quit := false)
    case Quit => s.(quit := true)
    case LoopStop => s.(looping := false)
  }

  lemma ValidHalt(s: State, m: nat, dereg: bool, next: Option<Entry>)
    requires Valid(s) && m < |s.mods| && (dereg ==> !IsRegistered(s, m)) && s.mods[m].state != Zombie
    ensures Valid(Halt(s, m, dereg, next))
  {
    var t := Halt(s, m, dereg, next);
    forall n | n in t.registered
      ensures Names(t, n)
    {
      assert Names(s, n);
    }
  }

  lemma ValidRemove(s: State, m: nat, next: Option<Entry>)
    requires Valid(s) && m < |s.mods| && s.mods[m].state != Zombie
    ensures Valid(Remove(s, m, next))
  {
    var t := s.(registered := s.registered - {s.mods[m].entry.name});
    forall n | n in t.registered
      ensures Names(t, n)
    {
      assert Names(s, n);
    }
    ValidHalt(t, m, true, next);
  }

  lemma ValidAdd(s: State, e: Entry)
    requires Valid(s)
    ensures Valid(Add(s, e))
  {
    var t := Add(s, e);
    forall n | n in t.registered
      ensures Names(t, n)
    {
      assert n in s.registered ==> Names(s, n);
    }
  }

  lemma ValidBecomes(s: State, m: nat, st: ModState)
    requires Valid(s) && m < |s.mods| && (st == Zombie ==> !IsRegistered(s, m))
    ensures Valid(Becomes(s, m, st))
  {
    var t := Becomes(s, m, st);
    forall n | n in t.registered
      ensures Names(t, n)
    {
      assert Names(s, n);
    }
  }

  /** The loop's flags do not matter, nor does one more hook that is not that of a deregistration. */
  lemma ValidSame(s: State, t: State)
    requires Valid(s) && t.mods == s.mods && t.registered == s.registered
    requires t.hooks == s.hooks || exists m: nat | m < |s.mods| ::
               t.hooks == s.hooks + [OnEval(m)] || t.hooks == s.hooks + [OnStart(m)]
    ensures Valid(t)
  {
    forall n | n in t.registered
      ensures Names(t, n)
    {
      assert Names(s, n);
    }
  }

  lemma ValidPop(s: State)
    requires Valid(s) && s.hooks != []
    ensures Valid(s.(hooks := s.hooks[..|s.hooks| - 1]))
    ensures var h := s.hooks[|s.hooks| - 1]; h.OnStop? && h.dereg ==> !IsRegistered(s, h.m)
  {
    var h, t := s.hooks[|s.hooks| - 1], s.(hooks := s.hooks[..|s.hooks| - 1]);
    forall n | n in t.registered
      ensures Names(t, n) && (h.OnStop? && h.dereg ==> t.registered[n] != h.m)
    {
      assert Names(s, n);
    }
  }

  lemma ValidReturn(s: State, answer: bool, pollOk: bool)
    requires Valid(s) && s.hooks != []
    ensures Valid(Step(s, Return(answer, pollOk)))
  {
    hide Names;
    var top := |s.hooks| - 1;
    var h, t := s.hooks[top], s.(hooks := s.hooks[..top]);
    ValidPop(s);
    match h
    case OnEval(m) =>
      ValidBecomes(t, m, Running);
      if answer && pollOk && t.mods[m].state != Zombie {
        ValidSame(Becomes(t, m, Running), Begin(t, m, true, true));
      }
    case OnStart(m) =>
      if t.mods[m].state != Zombie {
        ValidHalt(t, m, false, None);
      }
    case OnStop(m, dereg, next) =>
      if dereg {
        ValidBecomes(t, m, Zombie);
      }
      if next.Some? {
        ValidAdd(if dereg then Becomes(t, m, Zombie) else t, next.value);
      }
  }

  lemma ValidStep(s: State, a: Action)
    requires Valid(s) && Enabled(s, a)
    ensures Valid(Step(s, a))
  {
    match a
    case Register(e) =>
      if e.name in s.registered {
        assert Names(s, e.name);
        ValidRemove(s, s.registered[e.name], Some(e));
      } else {
        ValidAdd(s, e);
      }
    case Deregister(m) => ValidRemove(s, m, None);
    case Evaluate(m) => ValidSame(s, Step(s, a));
    case Start(m, ok) =>
      ValidBecomes(s, m, Running);
      if ok {
        ValidSame(Becomes(s, m, Running), Step(s, a));
      }
    case Pause(m, _) => ValidBecomes(s, m, Paused);
    case Resume(m, _) => ValidBecomes(s, m, Running);
    case Stop(m) => ValidHalt(s, m, false, None);
    case Return(answer, ok) => ValidReturn(s, answer, ok);
    case _ => ValidSame(s, Step(s, a));
  }

  ghost predicate Legal(s: State, run: seq<Action>)
    decreases |run|
  {
    run == [] || (Valid(s) && Enabled(s, run[0]) && Legal(Step(s, run[0]), run[1..]))
  }

  ghost function After(s: State, run: seq<Action>): State
    requires Legal(s, run)
    decreases |run|
  {
    if run == [] then s else After(Step(s, run[0]), run[1..])
  }

  // ---- the counter of running modules ----------------------------------------------

  function Runs(m: Mod): nat { if m.state == Running then 1 else 0 }

  function RunningNow(s: State): nat { Sum(Runs, s.mods) }

  /** The two steps that put the counter off by one: on_eval agrees to start a module that is running
      by then, and a deregistration ends although on_stop has started the module again. */
  function Drift(s: State, a: Action): nat {
    if !a.Return? || s.hooks == [] then 0
    else
      var h := s.hooks[|s.hooks| - 1];
      if !In(s, h.m, Running) then 0
      else if h.OnEval? && a.answer && a.pollOk then 1
      else if h.OnStop? && h.dereg then 1 else 0
  }

  lemma BecomesCounts(s: State, m: nat, st: ModState)
    requires m < |s.mods|
    ensures RunningNow(Becomes(s, m, st)) == RunningNow(s) + (if st == Running then 1 else 0) - Runs(s.mods[m])
  {
    SumUpdate(Runs, s.mods, m, s.mods[m].(state := st));
  }

  lemma AddCounts(s: State, e: Entry)
    ensures RunningNow(Add(s, e)) == RunningNow(s) && Add(s, e).running == s.running
  {
    SumAppend(Runs, s.mods, Mod(e, Idle));
  }

  lemma ReturnCounts(s: State, a: Action)
    requires Valid(s) && Enabled(s, a) && a.Return?
    ensures Step(s, a).running - RunningNow(Step(s, a)) == s.running - RunningNow(s) + Drift(s, a)
  {
    hide Sum;
    var top := |s.hooks| - 1;
    var h, t := s.hooks[top], s.(hooks := s.hooks[..top]);
    BecomesCounts(t, h.m, Running);
    BecomesCounts(t, h.m, Stopped);
    BecomesCounts(t, h.m, Zombie);
    if h.OnStop? && h.next.Some? {
      AddCounts(if h.dereg then Becomes(t, h.m, Zombie) else t, h.next.value);
    }
  }

  /** How far the counter is off changes by the drift of the step, and by nothing else. */
  lemma CounterStep(s: State, a: Action)
    requires Valid(s) && Enabled(s, a)
    ensures Step(s, a).running - RunningNow(Step(s, a)) == s.running - RunningNow(s) + Drift(s, a)
  {
    hide Sum;
    match a
    case Register(e) =>
      if e.name in s.registered {
        BecomesCounts(s, s.registered[e.name], Stopped);
      } else {
        AddCounts(s, e);
      }
    case Deregister(m) => BecomesCounts(s, m, Stopped);
    case Start(m, _) => BecomesCounts(s, m, Running);
    case Pause(m, _) => BecomesCounts(s, m, Paused);
    case Resume(m, _) => BecomesCounts(s, m, Running);
    case Stop(m) => BecomesCounts(s, m, Stopped);
    case Return(_, _) => ReturnCounts(s, a);
    case _ =>
  }

  ghost function Drifts(s: State, run: seq<Action>): nat
    requires Legal(s, run)
    decreases |run|
  {
    if run == [] then 0 else Drift(s, run[0]) + Drifts(Step(s, run[0]), run[1..])
  }

  /** After any run the counter exceeds the number of running modules by the drifts of that run. */
  lemma {:induction false} CounterRun(s: State, run: seq<Action>)
    requires Legal(s, run)
    ensures After(s, run).running - RunningNow(After(s, run)) == s.running - RunningNow(s) + Drifts(s, run)
    decreases |run|
  {
    hide Step, Enabled, Valid, RunningNow, Drift;
    if run != [] {
      CounterStep(s, run[0]);
      CounterRun(Step(s, run[0]), run[1..]);
    }
  }

  /** From an empty context, the blocking loop goes on exactly while no quit was requested and some
      module is running or the counter has drifted. */
  lemma LoopCondition(run: seq<Action>)
    requires Legal(Init(), run)
    ensures After(Init(), run).running == RunningNow(After(Init(), run)) <==> Drifts(Init(), run) == 0
    ensures LoopGoesOn(After(Init(), run)) <==>
            !After(Init(), run).quit && (Drifts(Init(), run) > 0 || exists m :: In(After(Init(), run), m, Running))
  {
    CounterRun(Init(), run);
    var s := After(Init(), run);
    hide Step, Enabled, Drifts, After, Legal;
    if m :| In(s, m, Running) {
      SumAtLeast(Runs, s.mods, m);
    } else {
      forall m | 0 <= m < |s.mods|
        ensures Runs(s.mods[m]) == 0
      {
        assert !In(s, m, Running);
      }
      SumZero(Runs, s.mods);
    }
  }

  /** A zombie stays one, whatever hooks are still in progress for it. */
  lemma {:induction false} ZombieForever(s: State, run: seq<Action>, m: nat)
    requires Legal(s, run) && In(s, m, Zombie)
    ensures In(After(s, run), m, Zombie)
    decreases |run|
  {
    if run != [] {
      ZombieStep(s, run[0], m);
      hide Step, Enabled, Valid;
      ZombieForever(Step(s, run[0]), run[1..], m);
    }
  }

  lemma ZombieStep(s: State, a: Action, m: nat)
    requires Valid(s) && Enabled(s, a) && In(s, m, Zombie)
    ensures In(Step(s, a), m, Zombie)
  {
    hide Names;
    if a.Register? && a.entry.name in s.registered {
      RegisteredLives(s, a.entry.name);
    }
  }

  // ---- hooks that leave their own module alone -------------------------------------

  predicate Guards(h: Hook, m: nat) {
    h.m == m && (h.OnEval? || (h.OnStop? && h.dereg))
  }

  /** The on_eval hook of a module, or the on_stop hook of its deregistration, directly or through
      further hooks starts that module; or on_eval has it evaluated again. */
  predicate StartsItself(s: State, a: Action) {
    || (a.Start? && exists i | 0 <= i < |s.hooks| :: Guards(s.hooks[i], a.m))
    || (a.Evaluate? && exists i | 0 <= i < |s.hooks| :: s.hooks[i] == OnEval(a.m))
  }

  ghost predicate Restrained(s: State, run: seq<Action>)
    requires Legal(s, run)
    decreases |run|
  {
    run == [] || (!StartsItself(s, run[0]) && Restrained(Step(s, run[0]), run[1..]))
  }

  predicate Asleep(s: State, h: Hook)
    requires h.m < |s.mods|
  {
    && (h.OnEval? ==> s.mods[h.m].state != Running && s.mods[h.m].state != Paused)
    && (h.OnStop? && h.dereg ==> s.mods[h.m].state == Stopped || s.mods[h.m].state == Zombie)
  }

  ghost predicate AllAsleep(s: State)
    requires Valid(s)
  {
    forall i | 0 <= i < |s.hooks| :: Asleep(s, s.hooks[i])
  }

  predicate Apart(hooks: seq<Hook>) {
    forall i, j | 0 <= i < j < |hooks| && hooks[j].OnEval? :: !Guards(hooks[i], hooks[j].m)
  }

  ghost predicate Calm(s: State)
    requires Valid(s)
  {
    AllAsleep(s) && Apart(s.hooks)
  }

  /** A module may change its state when no hook guards it, or when it falls asleep. */
  lemma AsleepAfter(s: State, m: nat, st: ModState, t: State)
    requires Valid(s) && Valid(t) && AllAsleep(s) && m < |s.mods|
    requires |t.mods| >= |s.mods| && forall k | 0 <= k < |s.mods| && k != m :: t.mods[k].state == s.mods[k].state
    requires t.mods[m].state == st
    requires st == Stopped || st == Zombie || forall i | 0 <= i < |t.hooks| :: !Guards(t.hooks[i], m)
    requires forall i | 0 <= i < |t.hooks| ::
               || t.hooks[i] in s.hooks || t.hooks[i].OnStart?
               || (t.hooks[i].OnStop? && t.hooks[i].m == m && st == Stopped)
    ensures AllAsleep(t)
  {
    forall i | 0 <= i < |t.hooks|
      ensures Asleep(t, t.hooks[i])
    {
      var h := t.hooks[i];
      if h in s.hooks {
        var k :| 0 <= k < |s.hooks| && s.hooks[k] == h;
        assert Asleep(s, s.hooks[k]);
        assert h.m == m && !Guards(h, m) ==> Asleep(t, h);
      }
    }
  }

  lemma NobodyGuards(s: State, m: nat)
    requires Valid(s) && AllAsleep(s) && m < |s.mods|
    requires s.mods[m].state == Running || s.mods[m].state == Paused
    ensures forall i | 0 <= i < |s.hooks| :: !Guards(s.hooks[i], m)
  {
    forall i | 0 <= i < |s.hooks|
      ensures !Guards(s.hooks[i], m)
    {
      assert Asleep(s, s.hooks[i]);
    }
  }

  lemma CalmHalt(s: State, m: nat, dereg: bool, next: Option<Entry>)
    requires Valid(s) && Calm(s) && m < |s.mods| && Valid(Halt(s, m, dereg, next))
    ensures Calm(Halt(s, m, dereg, next))
  {
    AsleepAfter(s, m, Stopped, Halt(s, m, dereg, next));
  }

  lemma CalmRemove(s: State, m: nat, next: Option<Entry>)
    requires Valid(s) && Calm(s) && m < |s.mods| && s.mods[m].state != Zombie
    ensures Valid(Remove(s, m, next)) && Calm(Remove(s, m, next))
  {
    ValidRemove(s, m, next);
    if Remove(s, m, next) != s {
      AsleepAfter(s, m, Stopped, Remove(s, m, next));
    }
  }

  lemma CalmAdd(s: State, e: Entry)
    requires Valid(s) && Calm(s)
    ensures Valid(Add(s, e)) && Calm(Add(s, e))
  {
    ValidAdd(s, e);
    var t := Add(s, e);
    forall i | 0 <= i < |t.hooks|
      ensures Asleep(t, t.hooks[i])
    {
      assert Asleep(s, s.hooks[i]);
    }
  }

  lemma CalmBegin(s: State, m: nat, starting: bool, ok: bool)
    requires Valid(s) && Calm(s) && m < |s.mods| && Valid(Begin(s, m, starting, ok))
    requires forall i | 0 <= i < |s.hooks| :: !Guards(s.hooks[i], m)
    ensures Calm(Begin(s, m, starting, ok))
  {
    if ok {
      AsleepAfter(s, m, Running, Begin(s, m, starting, ok));
    }
  }

  lemma CalmPop(s: State)
    requires Valid(s) && Calm(s) && s.hooks != []
    ensures Valid(s.(hooks := s.hooks[..|s.hooks| - 1])) && Calm(s.(hooks := s.hooks[..|s.hooks| - 1]))
  {
    ValidPop(s);
    var t := s.(hooks := s.hooks[..|s.hooks| - 1]);
    forall i | 0 <= i < |t.hooks|
      ensures Asleep(t, t.hooks[i])
    {
      assert Asleep(s, s.hooks[i]);
    }
  }

  lemma CalmReturn(s: State, answer: bool, ok: bool)
    requires Valid(s) && Calm(s) && s.hooks != [] && Valid(Step(s, Return(answer, ok)))
    ensures Drift(s, Return(answer, ok)) == 0 && Calm(Step(s, Return(answer, ok)))
  {
    var top := |s.hooks| - 1;
    var h, t := s.hooks[top], s.(hooks := s.hooks[..top]);
    assert Asleep(s, h);
    CalmPop(s);
    match h
    case OnEval(m) =>
      if answer && t.mods[m].state != Zombie {
        CalmBegin(t, m, true, ok);
      }
    case OnStart(m) =>
      if !answer && t.mods[m].state != Zombie {
        CalmHalt(t, m, false, None);
      }
    case OnStop(m, dereg, next) =>
      var gone := if dereg then Becomes(t, m, Zombie) else t;
      if dereg {
        ValidPop(s);
        ValidBecomes(t, m, Zombie);
        AsleepAfter(t, m, Zombie, gone);
      }
      if next.Some? {
        CalmAdd(gone, next.value);
      }
  }

  lemma CalmStep(s: State, a: Action)
    requires Valid(s) && Enabled(s, a) && Calm(s) && !StartsItself(s, a)
    ensures Drift(s, a) == 0
    ensures Valid(Step(s, a)) && Calm(Step(s, a))
  {
    hide Names, Apart, Asleep, AllAsleep;
    ValidStep(s, a);
    match a
    case Register(e) =>
      if e.name in s.registered {
        RegisteredLives(s, e.name);
        CalmRemove(s, s.registered[e.name], Some(e));
      } else {
        CalmAdd(s, e);
      }
    case Deregister(m) => CalmRemove(s, m, None);
    case Evaluate(m) => CalmEvaluate(s, m);
    case Start(m, ok) => CalmBegin(s, m, true, ok);
    case Pause(m, ok) =>
      NobodyGuards(s, m);
      if ok {
        CalmPause(s, m);
      }
    case Resume(m, ok) =>
      NobodyGuards(s, m);
      CalmBegin(s, m, false, ok);
    case Stop(m) => CalmHalt(s, m, false, None);
    case Return(answer, ok) => CalmReturn(s, answer, ok);
    case _ => CalmFlags(s, Step(s, a));
  }

  lemma RegisteredLives(s: State, n: Name)
    requires Valid(s) && n in s.registered
    ensures s.registered[n] < |s.mods| && s.mods[s.registered[n]].state != Zombie
  {
    assert Names(s, n);
  }

  lemma CalmEvaluate(s: State, m: nat)
    requires Valid(s) && Calm(s) && Enabled(s, Evaluate(m)) && !StartsItself(s, Evaluate(m))
    requires Valid(Step(s, Evaluate(m)))
    ensures Calm(Step(s, Evaluate(m)))
  {
    var t := Step(s, Evaluate(m));
    forall i | 0 <= i < |t.hooks|
      ensures Asleep(t, t.hooks[i]) && (i < |s.hooks| ==> !Guards(t.hooks[i], m))
    {
      if i < |s.hooks| {
        assert Asleep(s, s.hooks[i]);
      }
    }
  }

  lemma CalmPause(s: State, m: nat)
    requires Valid(s) && Calm(s) && Enabled(s, Pause(m, true)) && Valid(Step(s, Pause(m, true)))
    requires forall i | 0 <= i < |s.hooks| :: !Guards(s.hooks[i], m)
    ensures Calm(Step(s, Pause(m, true)))
  {
    AsleepAfter(s, m, Paused, Step(s, Pause(m, true)));
  }

  lemma CalmFlags(s: State, t: State)
    requires Valid(s) && Valid(t) && Calm(s) && t.mods == s.mods && t.hooks == s.hooks
    ensures Calm(t)
  {
    forall i | 0 <= i < |t.hooks|
      ensures Asleep(t, t.hooks[i])
    {
      assert Asleep(s, s.hooks[i]);
    }
  }

  /** When no such hook starts its own module, the counter never drifts. */
  lemma {:induction false} RestrainedNeverDrifts(s: State, run: seq<Action>)
    requires Valid(s) && Calm(s) && Legal(s, run) && Restrained(s, run)
    ensures Drifts(s, run) == 0
    decreases |run|
  {
    if run != [] {
      CalmStep(s, run[0]);
      hide Step, Enabled, Valid, Calm, Drift, StartsItself;
      RestrainedNeverDrifts(Step(s, run[0]), run[1..]);
    }
  }

  /** So from an empty context the counter is then exact, and the loop goes on while, and only while, a
      module is running and no quit was requested. */
  lemma RestrainedLoop(run: seq<Action>)
    requires Legal(Init(), run) && Restrained(Init(), run)
    ensures After(Init(), run).running == RunningNow(After(Init(), run))
    ensures LoopGoesOn(After(Init(), run)) <==>
            !After(Init(), run).quit && exists m :: In(After(Init(), run), m, Running)
  {
    RestrainedNeverDrifts(Init(), run);
    LoopCondition(run);
  }

  // ---- hooks that do not -----------------------------------------------------------

  lemma Prepend(s: State, a: Action, s': State, rest: seq<Action>) returns (run: seq<Action>)
    requires Valid(s) && Enabled(s, a) && Step(s, a) == s' && Legal(s', rest)
    ensures Legal(s, run) && After(s, run) == After(s', rest)
  {
    hide Enabled, Step, Valid;
    run := [a] + rest;
    assert run[1..] == rest;
  }

  /** The context of one module, in its loop. */
  function One(e: Entry, st: ModState, names: map<Name, nat>, running: int, hooks: seq<Hook>): State {
    State([Mod(e, st)], names, running, true, false, hooks)
  }

  lemma LegalNothing(s: State) returns (run: seq<Action>)
    ensures Legal(s, run) && After(s, run) == s
  {
    run := [];
  }

  /** The first steps of the runs below: a module is registered, and the loop starts. */
  lemma FromInit(e: Entry, rest: seq<Action>) returns (run: seq<Action>)
    requires Legal(One(e, Idle, map[e.name := 0], 0, []), rest)
    ensures Legal(Init(), run) && After(Init(), run) == After(One(e, Idle, map[e.name := 0], 0, []), rest)
  {
    hide Legal, After;
    var r := map[e.name := 0];
    var s := State([Mod(e, Idle)], r, 0, false, false, []);
    run := Prepend(s, LoopStart, One(e, Idle, r, 0, []), rest);
    run := Prepend(Init(), Register(e), s, run);
  }

  /** The loop goes on although no module is running. */
  ghost predicate RunsIdly(s: State) {
    s.looping && LoopGoesOn(s) && s.hooks == [] && forall m | 0 <= m < |s.mods| :: !In(s, m, Running)
  }

  /** on_eval starts its module and then agrees that it be started: it is counted twice, and when it has
      stopped the loop still goes on although nothing runs. */
  lemma EvalHookStartsItself(e: Entry) returns (run: seq<Action>)
    ensures Legal(Init(), run) && RunsIdly(After(Init(), run))
  {
    hide Legal, After;
    var r := map[e.name := 0];
    run := CountedTwice(e);
    var inner := One(e, Running, r, 1, [OnEval(0), OnStart(0)]);
    run := Prepend(inner, Return(true, true), One(e, Running, r, 1, [OnEval(0)]), run);
    run := Prepend(One(e, Idle, r, 0, [OnEval(0)]), Start(0, true), inner, run);
    run := Prepend(One(e, Idle, r, 0, []), Evaluate(0), One(e, Idle, r, 0, [OnEval(0)]), run);
    run := FromInit(e, run);
  }

  lemma CountedTwice(e: Entry) returns (run: seq<Action>)
    ensures Legal(One(e, Running, map[e.name := 0], 1, [OnEval(0)]), run)
    ensures After(One(e, Running, map[e.name := 0], 1, [OnEval(0)]), run) == One(e, Stopped, map[e.name := 0], 1, [])
  {
    hide Legal, After;
    var r := map[e.name := 0];
    run := LegalNothing(One(e, Stopped, r, 1, []));
    run := Prepend(One(e, Stopped, r, 1, [OnStop(0, false, None)]), Return(true, true), One(e, Stopped, r, 1, []), run);
    run := Prepend(One(e, Running, r, 2, []), Stop(0), One(e, Stopped, r, 1, [OnStop(0, false, None)]), run);
    run := Prepend(One(e, Running, r, 2, [OnStart(0)]), Return(true, true), One(e, Running, r, 2, []), run);
    run := Prepend(One(e, Running, r, 1, [OnEval(0)]), Return(true, true), One(e, Running, r, 2, [OnStart(0)]), run);
  }

  /** on_stop starts the module again while it is being deregistered: a zombie remains counted, and the
      loop goes on although nothing runs. */
  lemma StopHookStartsItself(e: Entry) returns (run: seq<Action>)
    requires !e.persist
    ensures Legal(Init(), run) && RunsIdly(After(Init(), run))
  {
    hide Legal, After;
    var r := map[e.name := 0];
    run := ZombieCounted(e);
    run := Prepend(One(e, Running, r, 1, [OnStart(0)]), Return(true, true), One(e, Running, r, 1, []), run);
    run := Prepend(One(e, Idle, r, 0, []), Start(0, true), One(e, Running, r, 1, [OnStart(0)]), run);
    run := FromInit(e, run);
  }

  lemma ZombieCounted(e: Entry) returns (run: seq<Action>)
    requires !e.persist
    ensures Legal(One(e, Running, map[e.name := 0], 1, []), run)
    ensures After(One(e, Running, map[e.name := 0], 1, []), run) == One(e, Zombie, map[], 1, [])
  {
    hide Legal, After;
    var h := OnStop(0, true, None);
    run := LegalNothing(One(e, Zombie, map[], 1, []));
    run := Prepend(One(e, Running, map[], 1, [h]), Return(true, true), One(e, Zombie, map[], 1, []), run);
    run := Prepend(One(e, Running, map[], 1, [h, OnStart(0)]), Return(true, true), One(e, Running, map[], 1, [h]), run);
    run := Prepend(One(e, Stopped, map[], 0, [h]), Start(0, true), One(e, Running, map[], 1, [h, OnStart(0)]), run);
    run := Prepend(One(e, Running, map[e.name := 0], 1, []), Deregister(0), One(e, Stopped, map[], 0, [h]), run);
  }

  /** Registering under the name of a module that may be replaced: once the hook of the old module has
      returned, the old one is a zombie and no longer counted, the new one idle in its place, and no
      other module has changed. */
  lemma Replacement(s: State, e: Entry, answer: bool, pollOk: bool)
    requires Valid(s) && e.name in s.registered
    requires s.mods[s.registered[e.name]].entry.allowReplace
    requires !(s.mods[s.registered[e.name]].entry.persist && s.looping)
    ensures Valid(Step(s, Register(e))) && Enabled(Step(s, Register(e)), Return(answer, pollOk))
    ensures Replaced(s, Step(Step(s, Register(e)), Return(answer, pollOk)), s.registered[e.name], e)
  {
    var prior := s.registered[e.name];
    assert Names(s, e.name);
    ValidStep(s, Register(e));
    var t := Step(s, Register(e));
    assert t.hooks == s.hooks + [OnStop(prior, true, Some(e))] && t.hooks[..|t.hooks| - 1] == s.hooks;
  }

  ghost predicate Replaced(s: State, t: State, prior: nat, e: Entry)
    requires prior < |s.mods|
  {
    && t.mods == s.mods[prior := s.mods[prior].(state := Zombie)] + [Mod(e, Idle)]
    && t.registered == s.registered[e.name := |s.mods|]
    && t.running == s.running - Runs(s.mods[prior]) && t.hooks == s.hooks && t.looping == s.looping && t.quit == s.quit
  }
}
