/** What whole runtime calls come to, with the hooks that they call, and what the flags of the loop and of a
    module promise over whole runs. */
module LifecycleCalls {
  import opened States
  import opened Options
  import opened Lifecycle

  /** Two steps in a row. */
  function Twice(s: State, a: Action, b: Action): State
    requires Valid(s) && Enabled(s, a) && Valid(Step(s, a)) && Enabled(Step(s, a), b)
  {
    Step(Step(s, a), b)
  }

  /** The module in that state, the counter changed by so much, and everything else as it was. */
  function Moved(s: State, m: nat, st: ModState, change: int): State
    requires m < |s.mods|
  {
    s.(mods := s.mods[m := Mod(s.mods[m].entry, st)], running := s.running + change)
  }

  // ---- starting and evaluating -----------------------------------------------------

  /** When on_start answers, the module goes on if the answer was true. If it was false, the module is
      stopped at once, whatever the hook has made of it in between, unless it was deregistered. */
  lemma StartHookReturns(s: State, m: nat, answer: bool, pollOk: bool)
    requires Valid(s) && s.hooks != [] && s.hooks[|s.hooks| - 1] == OnStart(m)
    ensures m < |s.mods|
    ensures var t := Step(s, Return(answer, pollOk));
            var popped := s.(hooks := s.hooks[..|s.hooks| - 1]);
            if answer || s.mods[m].state == Zombie then t == popped
            else t == Moved(popped, m, Stopped, if s.mods[m].state == Running then -1 else 0).(
                        hooks := popped.hooks + [OnStop(m, false, None)])
  {
    assert Enabled(s, Return(answer, pollOk));
  }

  /** A start whose hook makes no calls: with the answer true the module is running and counted, with the
      answer false it is stopped, with its on_stop in progress, and the counter is what it was. When the
      poll plugin refuses, nothing changes. */
  lemma StartHookDecides(s: State, m: nat, answer: bool, pollOk: bool)
    requires Valid(s) && (In(s, m, Idle) || In(s, m, Stopped))
    ensures Enabled(s, Start(m, true)) && Valid(Step(s, Start(m, true)))
    ensures Enabled(Step(s, Start(m, true)), Return(answer, pollOk))
    ensures var t := Twice(s, Start(m, true), Return(answer, pollOk));
            t == if answer then Moved(s, m, Running, 1)
                 else Moved(s, m, Stopped, 0).(hooks := s.hooks + [OnStop(m, false, None)])
    ensures Step(s, Start(m, false)) == s
  {
    ValidStep(s, Start(m, true));
    var t := Step(s, Start(m, true));
    assert t.hooks == s.hooks + [OnStart(m)] && t.hooks[..|t.hooks| - 1] == s.hooks;
    StartHookReturns(t, m, answer, pollOk);
    assert t.mods[m := Mod(s.mods[m].entry, Stopped)] == s.mods[m := Mod(s.mods[m].entry, Stopped)];
  }

  /** An evaluation in the loop whose hook makes no calls: the module is started exactly when on_eval answers
      true and the poll plugin takes it; otherwise nothing changes. */
  lemma EvaluationDecides(s: State, m: nat, answer: bool, pollOk: bool)
    requires Valid(s) && s.looping && IsRegistered(s, m) && In(s, m, Idle)
    ensures Enabled(s, Evaluate(m)) && Valid(Step(s, Evaluate(m)))
    ensures Enabled(Step(s, Evaluate(m)), Return(answer, pollOk))
    ensures var t := Twice(s, Evaluate(m), Return(answer, pollOk));
            t == if answer && pollOk then Moved(s, m, Running, 1).(hooks := s.hooks + [OnStart(m)]) else s
  {
    ValidStep(s, Evaluate(m));
    var t := Step(s, Evaluate(m));
    assert t.hooks == s.hooks + [OnEval(m)] && t.hooks[..|t.hooks| - 1] == s.hooks;
  }

  /** Pausing calls no hook, and resuming undoes it; a refusal of the poll plugin changes nothing. */
  lemma PauseAndResume(s: State, m: nat)
    requires Valid(s) && In(s, m, Running)
    ensures Enabled(s, Pause(m, true)) && Step(s, Pause(m, true)) == Moved(s, m, Paused, -1)
    ensures Valid(Step(s, Pause(m, true))) && Enabled(Step(s, Pause(m, true)), Resume(m, true))
    ensures Twice(s, Pause(m, true), Resume(m, true)) == s
    ensures Step(s, Pause(m, false)) == s
    ensures Twice(s, Pause(m, true), Resume(m, false)) == Moved(s, m, Paused, -1)
  {
    ValidStep(s, Pause(m, true));
    var t := Step(s, Pause(m, true));
    assert t.mods[m := Mod(s.mods[m].entry, Running)] == s.mods;
  }

  // ---- stopping and deregistering --------------------------------------------------

  /** A stop whose hook makes no calls: the module is stopped, and not counted any more. */
  lemma StopCompletes(s: State, m: nat, answer: bool, pollOk: bool)
    requires Valid(s) && (In(s, m, Running) || In(s, m, Paused))
    ensures Enabled(s, Stop(m)) && Valid(Step(s, Stop(m))) && Enabled(Step(s, Stop(m)), Return(answer, pollOk))
    ensures Twice(s, Stop(m), Return(answer, pollOk)) == Moved(s, m, Stopped, if In(s, m, Running) then -1 else 0)
  {
    ValidStep(s, Stop(m));
    var t := Step(s, Stop(m));
    assert t.hooks == s.hooks + [OnStop(m, false, None)] && t.hooks[..|t.hooks| - 1] == s.hooks;
  }

  /** A deregistration whose hook makes no calls: the name is free, the module a zombie and not counted. A
      persistent module cannot be deregistered while the context loops, nor any module a second time. */
  lemma DeregistrationCompletes(s: State, m: nat, answer: bool, pollOk: bool)
    requires Valid(s) && m < |s.mods| && s.mods[m].state != Zombie
    ensures Enabled(s, Deregister(m)) && Valid(Step(s, Deregister(m)))
    ensures if (s.mods[m].entry.persist && s.looping) || s.mods[m].entry.name !in s.registered
            then Step(s, Deregister(m)) == s
            else Enabled(Step(s, Deregister(m)), Return(answer, pollOk))
                 && Twice(s, Deregister(m), Return(answer, pollOk))
                    == Moved(s, m, Zombie, if In(s, m, Running) then -1 else 0).(
                         registered := s.registered - {s.mods[m].entry.name})
  {
    hide Names;
    ValidStep(s, Deregister(m));
    var t := Step(s, Deregister(m));
    if t != s {
      assert t.hooks == s.hooks + [OnStop(m, true, None)] && t.hooks[..|t.hooks| - 1] == s.hooks;
      assert t.mods[m := Mod(s.mods[m].entry, Zombie)] == s.mods[m := Mod(s.mods[m].entry, Zombie)];
    }
  }

  /** However the on_stop hook of a deregistration has used its module, the module then is a zombie. */
  lemma DeregistrationEnds(s: State, m: nat, next: Option<Entry>, answer: bool, pollOk: bool)
    requires Valid(s) && s.hooks != [] && s.hooks[|s.hooks| - 1] == OnStop(m, true, next)
    ensures In(Step(s, Return(answer, pollOk)), m, Zombie)
  {
    assert Enabled(s, Return(answer, pollOk));
  }

  /** A registration under a free name adds an idle module; under the name of a module that may not be
      replaced, or that is persistent while the context loops, it changes nothing. */
  lemma Registration(s: State, e: Entry)
    requires Valid(s)
    ensures e.name !in s.registered ==>
              Step(s, Register(e)) == s.(mods := s.mods + [Mod(e, Idle)],
                                         registered := s.registered[e.name := |s.mods|])
    ensures e.name in s.registered ==>
              && s.registered[e.name] < |s.mods|
              && var prior := s.mods[s.registered[e.name]].entry;
                 (!prior.allowReplace || (prior.persist && s.looping) <==> Step(s, Register(e)) == s)
  {
    if e.name in s.registered {
      assert Names(s, e.name);
      var t := Step(s, Register(e));
      assert t != s ==> |t.hooks| == |s.hooks| + 1;
    }
  }

  // ---- which changes of state there are --------------------------------------------

  lemma RegisteredUnderName(s: State, n: Name)
    requires Valid(s) && n in s.registered
    ensures var m := s.registered[n]; m < |s.mods| && s.mods[m].entry.name == n && s.mods[m].state != Zombie
  {
    assert Names(s, n);
  }

  /** What it takes for a module to change to a state: it is never idle again, is paused by a pause of a
      running module only, becomes a zombie only when the on_stop hook of its deregistration returns, is
      stopped by a stop while running or paused, by a removal of its name, or for its on_start's answer; and
      it never comes back from being a zombie. */
  ghost predicate MayBecome(s: State, a: Action, m: nat, st: ModState)
    requires m < |s.mods| && (a.Return? ==> s.hooks != [])
  {
    s.mods[m].state != Zombie && match st
    case Idle => false
    case Running =>
      || (a == Start(m, true) && (In(s, m, Idle) || In(s, m, Stopped))) || (a == Resume(m, true) && In(s, m, Paused))
      || (a == Return(true, true) && s.hooks[|s.hooks| - 1] == OnEval(m))
    case Paused => a == Pause(m, true) && In(s, m, Running)
    case Stopped =>
      || (a == Stop(m) && (In(s, m, Running) || In(s, m, Paused))) || a == Deregister(m)
      || (a.Register? && s.mods[m].entry.name == a.entry.name)
      || (a.Return? && !a.answer && s.hooks[|s.hooks| - 1] == OnStart(m))
    case Zombie => a.Return? && s.hooks[|s.hooks| - 1].OnStop? && s.hooks[|s.hooks| - 1].dereg
                             && s.hooks[|s.hooks| - 1].m == m
  }

  lemma HookChanges(s: State, h: Hook, answer: bool, pollOk: bool, m: nat)
    requires h.m < |s.mods| && m < |s.mods|
    ensures m < |Returned(s, h, answer, pollOk).mods|
    ensures var (st, st') := (s.mods[m].state, Returned(s, h, answer, pollOk).mods[m].state);
            st' != st ==>
              && h.m == m && st != Zombie && st' != Idle && st' != Paused
              && (st' == Running ==> h.OnEval? && answer && pollOk) && (st' == Stopped ==> h.OnStart? && !answer)
              && (st' == Zombie ==> h.OnStop? && h.dereg)
  {}

  lemma ReturnChanges(s: State, answer: bool, pollOk: bool, m: nat)
    requires Valid(s) && s.hooks != [] && m < |s.mods|
    ensures m < |Step(s, Return(answer, pollOk)).mods|
    ensures var (st, st') := (s.mods[m].state, Step(s, Return(answer, pollOk)).mods[m].state);
            st' != st ==> MayBecome(s, Return(answer, pollOk), m, st')
  {
    hide Names, Returned;
    var top := |s.hooks| - 1;
    HookChanges(s.(hooks := s.hooks[..top]), s.hooks[top], answer, pollOk, m);
  }

  lemma CallChanges(s: State, a: Action, m: nat)
    requires Valid(s) && Enabled(s, a) && !a.Return? && m < |s.mods|
    ensures m < |Step(s, a).mods|
    ensures Step(s, a).mods[m].state != s.mods[m].state ==> MayBecome(s, a, m, Step(s, a).mods[m].state)
  {
    hide Names;
    if a.Register? && a.entry.name in s.registered {
      RegisteredUnderName(s, a.entry.name);
    }
  }

  lemma EnabledReturn(s: State, a: Action)
    requires Enabled(s, a) && a.Return?
    ensures s.hooks != []
  {}

  /** In no step does a module change its state in any other way. */
  lemma StateChanges(s: State, a: Action, m: nat)
    requires Valid(s) && Enabled(s, a) && m < |s.mods|
    ensures m < |Step(s, a).mods|
    ensures Step(s, a).mods[m].state != s.mods[m].state ==> MayBecome(s, a, m, Step(s, a).mods[m].state)
  {
    hide Valid, Enabled, Step, MayBecome;
    if a.Return? {
      EnabledReturn(s, a);
      ReturnChanges(s, a.answer, a.pollOk, m);
    } else {
      CallChanges(s, a, m);
    }
  }

  lemma StaysStarted(s: State, a: Action, m: nat)
    requires Valid(s) && Enabled(s, a) && m < |s.mods| && s.mods[m].state != Idle
    ensures m < |Step(s, a).mods| && Step(s, a).mods[m].state != Idle && a != Evaluate(m)
  {
    hide Valid, Names, Step;
    StateChanges(s, a, m);
  }

  /** Once a module has been started or stopped, no run evaluates it again: on_eval is asked until then only. */
  lemma {:induction false} NeverEvaluatedAgain(s: State, run: seq<Action>, m: nat, k: nat)
    requires Legal(s, run) && m < |s.mods| && s.mods[m].state != Idle && k < |run|
    ensures run[k] != Evaluate(m)
    decreases k
  {
    hide Step, Enabled, Valid;
    StaysStarted(s, run[0], m);
    if k > 0 {
      NeverEvaluatedAgain(Step(s, run[0]), run[1..], m, k - 1);
    }
  }

  // ---- the flags of the loop -------------------------------------------------------

  predicate StartsNoLoop(run: seq<Action>) {
    forall i | 0 <= i < |run| :: !run[i].LoopStart?
  }

  lemma {:induction false} QuitLasts(s: State, run: seq<Action>)
    requires Legal(s, run) && s.quit && StartsNoLoop(run)
    ensures After(s, run).quit
    decreases |run|
  {
    if run != [] {
      QuitStep(s, run[0]);
      hide Step, Enabled, Valid;
      QuitLasts(Step(s, run[0]), run[1..]);
    }
  }

  lemma QuitStep(s: State, a: Action)
    requires Valid(s) && Enabled(s, a) && s.quit && !a.LoopStart?
    ensures Step(s, a).quit
  {}

  /** After a quit the loop does not go on, whatever is called until the loop is started again; and it can
      be left at any time. A loop that is started afresh goes on as long as the counter says so. */
  lemma QuitEndsLoop(s: State, run: seq<Action>)
    requires Valid(s) && s.looping && Legal(Step(s, Quit), run) && StartsNoLoop(run)
    ensures !LoopGoesOn(After(Step(s, Quit), run))
    ensures After(Step(s, Quit), run).looping ==> Enabled(After(Step(s, Quit), run), LoopStop)
  {
    QuitLasts(Step(s, Quit), run);
  }

  lemma LoopStartsAfresh(s: State)
    requires Valid(s) && !s.looping
    ensures var t := Step(s, LoopStart);
            t.looping && (LoopGoesOn(t) <==> s.running > 0)
            && t.mods == s.mods && t.registered == s.registered && t.hooks == s.hooks && t.running == s.running
  {}

  /** The loop is left when a quit was requested or no module is counted, and only then. */
  lemma LoopStops(s: State)
    requires Valid(s) && s.looping
    ensures Enabled(s, LoopStop) <==> s.quit || s.running <= 0
    ensures Enabled(s, LoopStop) ==> Step(s, LoopStop) == s.(looping := false)
  {}

  // ---- persistent modules ----------------------------------------------------------

  /** A module deregisters under a name that by now stands for another one: it is being deregistered
      itself, and its name has been taken again. */
  predicate TakesNameOf(s: State, a: Action, m: nat) {
    && a.Deregister? && a.m < |s.mods| && m < |s.mods| && a.m != m
    && s.mods[a.m].entry.name == s.mods[m].entry.name && !s.mods[a.m].entry.persist
  }

  lemma PersistentDeregisters(s: State, d: nat, m: nat)
    requires Valid(s) && Enabled(s, Deregister(d)) && IsRegistered(s, m) && s.mods[m].entry.persist && s.looping
    ensures m < |Step(s, Deregister(d)).mods| && Step(s, Deregister(d)).mods[m].entry == s.mods[m].entry
    ensures IsRegistered(Step(s, Deregister(d)), m) <==> !TakesNameOf(s, Deregister(d), m)
  {
    hide Valid;
  }

  lemma PersistentReturns(s: State, a: Action, m: nat)
    requires Valid(s) && Enabled(s, a) && a.Return? && IsRegistered(s, m)
    ensures m < |Step(s, a).mods| && Step(s, a).mods[m].entry == s.mods[m].entry && IsRegistered(Step(s, a), m)
  {
    hide Names;
  }

  /** While the context loops, a persistent module stays registered, except when another one that is already
      being deregistered, and had the same name, is deregistered once more. */
  lemma PersistentStep(s: State, a: Action, m: nat)
    requires Valid(s) && Enabled(s, a) && IsRegistered(s, m) && s.mods[m].entry.persist && s.looping
    ensures m < |Step(s, a).mods| && Step(s, a).mods[m].entry == s.mods[m].entry
    ensures IsRegistered(Step(s, a), m) <==> !TakesNameOf(s, a, m)
  {
    hide Names;
    if a.Deregister? {
      PersistentDeregisters(s, a.m, m);
    } else if a.Return? {
      PersistentReturns(s, a, m);
    } else if a.Register? && a.entry.name in s.registered {
      RegisteredUnderName(s, a.entry.name);
    }
  }

  ghost predicate NameIsOwn(s: State, run: seq<Action>, m: nat)
    requires Legal(s, run)
    decreases |run|
  {
    run == [] || (!run[0].LoopStop? && !TakesNameOf(s, run[0], m) && NameIsOwn(Step(s, run[0]), run[1..], m))
  }

  /** So in every run in which that does not happen a persistent module stays registered, and does not become
      a zombie, until the loop ends. */
  lemma {:induction false} PersistentStays(s: State, run: seq<Action>, m: nat)
    requires Valid(s) && Legal(s, run) && NameIsOwn(s, run, m)
    requires IsRegistered(s, m) && s.mods[m].entry.persist && s.looping
    ensures IsRegistered(After(s, run), m) && !In(After(s, run), m, Zombie)
    decreases |run|
  {
    if run != [] {
      PersistentStep(s, run[0], m);
      ValidStep(s, run[0]);
      StaysLooping(s, run[0]);
      hide Step, Enabled, Valid, IsRegistered;
      PersistentStays(Step(s, run[0]), run[1..], m);
    } else {
      assert Names(s, s.mods[m].entry.name);
    }
  }

  lemma StaysLooping(s: State, a: Action)
    requires Valid(s) && Enabled(s, a) && s.looping && !a.LoopStop?
    ensures Step(s, a).looping
  {}

  /** It can happen: a module is deregistered in the loop, its on_stop registers a persistent module under
      the same name and deregisters its own a second time; that takes the name away from the new module. */
  lemma PersistentLosesName(e: Entry, p: Entry) returns (run: seq<Action>)
    requires !e.persist && p.persist && p.name == e.name
    ensures Legal(Init(), run)
    ensures var s := After(Init(), run);
            s.looping && s.registered == map[] && |s.mods| == 2 && s.mods[1] == Mod(p, Idle)
  {
    hide Legal, After;
    var r, h := map[e.name := 0], OnStop(0, true, None);
    var s1 := One(e, Stopped, map[], 0, [h]);
    var s2 := State([Mod(e, Stopped), Mod(p, Idle)], map[p.name := 1], 0, true, false, [h]);
    var s3 := s2.(registered := map[], hooks := [h, h]);
    run := LegalNothing(s3);
    run := Prepend(s2, Deregister(0), s3, run);
    run := Prepend(s1, Register(p), s2, run);
    run := Prepend(One(e, Idle, r, 0, []), Deregister(0), s1, run);
    run := FromInit(e, run);
  }
}
