/** Pausing and resuming modules together with those bound to them, over a bind graph that may be
    cyclic (`m_mod_pause`, `m_mod_resume`). */
module Bind {
  import opened Collections
  import opened States

  class Mod {
    var state: ModState
    var tokens: nat
    var bound: seq<Mod>  // the modules that follow this one

    constructor (tokens: nat)
      ensures state == Idle && this.tokens == tokens && bound == []
    {
      this.state, this.tokens, this.bound := Idle, tokens, [];
    }
  }

  class Context {
    var running: int  // running_modules
  }

  // ---- the bind graph as a value ---------------------------------------------------

  datatype Snap = Snap(state: ModState, tokens: nat, bound: seq<Mod>)

  type Graph = map<Mod, Snap>

  ghost function View(mods: set<Mod>): (g: Graph)
    reads mods
    ensures g.Keys == mods
  {
    map x | x in mods :: Snap(x.state, x.tokens, x.bound)
  }

  ghost predicate Closed(g: Graph) {
    forall x, y | x in g && y in g[x].bound :: y in g
  }

  /** A call on the module gets past its guards and the poll plugin. */
  ghost predicate Ready(g: Graph, x: Mod, from: ModState, fails: set<Mod>) {
    x in g && g[x].state == from && g[x].tokens > 0 && x !in fails
  }

  /** A walk along the bound lists, over ready modules only. */
  ghost predicate Path(older p: seq<Mod>, g: Graph, m: Mod, x: Mod, from: ModState, fails: set<Mod>) {
    && p != [] && p[0] == m && p[|p| - 1] == x
    && (forall i | 0 <= i < |p| :: Ready(g, p[i], from, fails))
    && (forall i | 0 <= i < |p| - 1 :: p[i] in g && p[i + 1] in g[p[i]].bound)
  }

  ghost predicate Reaches(g: Graph, m: Mod, x: Mod, from: ModState, fails: set<Mod>) {
    exists p :: Path(p, g, m, x, from, fails)
  }

  ghost function Reached(g: Graph, m: Mod, from: ModState, fails: set<Mod>): (r: set<Mod>)
    ensures r <= g.Keys
  {
    set x | x in g.Keys && Reaches(g, m, x, from, fails)
  }

  /** How often `x` is called on behalf of the modules in `callers`. */
  ghost function Calls(g: Graph, callers: set<Mod>, x: Mod): nat
    requires callers <= g.Keys
  {
    if callers == {} then 0 else
      var y :| y in callers;
      multiset(g[y].bound)[x] + Calls(g, callers - {y}, x)
  }

  /** How often `x` is called when `m` is: as `m` itself, and on behalf of each module that is reached. */
  ghost function AllCalls(g: Graph, m: Mod, x: Mod, from: ModState, fails: set<Mod>): nat {
    (if x == m then 1 else 0) + Calls(g, Reached(g, m, from, fails), x)
  }

  function Left(tokens: nat, calls: nat): nat {
    if calls < tokens then tokens - calls else 0
  }

  /** What happens to one module: when it is reached it changes state and pays one token; else it
      keeps its state, and pays for each call that only the poll plugin refuses. */
  ghost predicate Follows(
      g: Graph, g': Graph, x: Mod, reached: bool, calls: nat, from: ModState, to: ModState, fails: set<Mod>)
    requires x in g && x in g'
  {
    && g'[x].bound == g[x].bound
    && (reached ==> g'[x].state == to && g'[x].tokens == g[x].tokens - 1)
    && (!reached ==> g'[x].state == g[x].state)
    && (!reached ==> g'[x].tokens == if x in fails && g[x].state == from then Left(g[x].tokens, calls) else g[x].tokens)
  }

  /** The effect of a whole call on every module. */
  ghost predicate Spread(g: Graph, g': Graph, m: Mod, from: ModState, to: ModState, fails: set<Mod>) {
    && g'.Keys == g.Keys
    && forall x | x in g ::
         Follows(g, g', x, x in Reached(g, m, from, fails), AllCalls(g, m, x, from, fails), from, to, fails)
  }

  ghost function InState(g: Graph, from: ModState): set<Mod> {
    set x | x in g.Keys && g[x].state == from
  }

  function Verdict(state: ModState, tokens: nat, from: ModState, fails: bool): Outcome {
    if state != from then NoAccess else if tokens == 0 then TryAgain else if fails then PollError else Done
  }

  // ---- depth first search ----------------------------------------------------------

  lemma {:induction false} CallsWith(g: Graph, callers: set<Mod>, y: Mod, x: Mod)
    requires callers <= g.Keys && y in callers
    ensures Calls(g, callers, x) == multiset(g[y].bound)[x] + Calls(g, callers - {y}, x)
    decreases |callers|
  {
    var z :| z in callers && Calls(g, callers, x) == multiset(g[z].bound)[x] + Calls(g, callers - {z}, x);
    if z != y {
      CallsWith(g, callers - {z}, y, x);
      CallsWith(g, callers - {y}, z, x);
      assert callers - {z} - {y} == callers - {y} - {z};
    }
  }

  lemma {:induction false} CallsJoin(g: Graph, g1: Graph, a: set<Mod>, b: set<Mod>, x: Mod)
    requires a + b <= g.Keys && a !! b && g1.Keys == g.Keys && forall y | y in b :: g1[y].bound == g[y].bound
    ensures Calls(g, a + b, x) == Calls(g, a, x) + Calls(g1, b, x)
    decreases |b|
  {
    if y :| y in b {
      CallsJoin(g, g1, a, b - {y}, x);
      CallsWith(g, a + b, y, x);
      CallsWith(g1, b, y, x);
      assert a + b - {y} == a + (b - {y});
    } else {
      assert a + b == a;
    }
  }

  /** The calls on `x` when the first `i` bound modules of `m` have been called. */
  ghost function CallsSoFar(g: Graph, done: set<Mod>, m: Mod, i: nat, x: Mod): nat
    requires m in g && done <= g.Keys && i <= |g[m].bound|
  {
    (if x == m then 1 else 0) + Calls(g, done - {m}, x) + multiset(g[m].bound[..i])[x]
  }

  /** Part of the way: the modules in `done` have changed, and the first `i` bound modules of `m`
      have been called. */
  ghost predicate Partial(
      g: Graph, g': Graph, done: set<Mod>, m: Mod, i: nat, from: ModState, to: ModState, fails: set<Mod>)
    requires m in g && i <= |g[m].bound|
  {
    && g'.Keys == g.Keys && m in done && done <= Reached(g, m, from, fails)
    && (forall x | x in g :: Follows(g, g', x, x in done, CallsSoFar(g, done, m, i, x), from, to, fails))
    && (forall x, y | x in done && x != m && y in g[x].bound && Ready(g, y, from, fails) :: y in done)
    && (forall y | y in g[m].bound[..i] && Ready(g, y, from, fails) :: y in done)
  }

  lemma ReachesItself(g: Graph, m: Mod, from: ModState, fails: set<Mod>)
    requires Ready(g, m, from, fails)
    ensures m in Reached(g, m, from, fails)
  {
    assert Path([m], g, m, m, from, fails);
  }

  lemma ReachesOn(g: Graph, m: Mod, x: Mod, y: Mod, from: ModState, fails: set<Mod>)
    requires x in Reached(g, m, from, fails) && y in g[x].bound && Ready(g, y, from, fails)
    ensures y in Reached(g, m, from, fails)
  {
    var p :| Path(p, g, m, x, from, fails);
    assert Path(p + [y], g, m, y, from, fails);
  }

  lemma ReachedIsReady(g: Graph, m: Mod, x: Mod, from: ModState, fails: set<Mod>)
    requires x in Reached(g, m, from, fails)
    ensures Ready(g, x, from, fails) && Ready(g, m, from, fails)
  {
    var p :| Path(p, g, m, x, from, fails);
    assert Ready(g, p[0], from, fails) && Ready(g, p[|p| - 1], from, fails);
  }

  /** A walk of the graph as it is part of the way, from a module bound to `m`, extends to one from `m`. */
  lemma ReachedBefore(g: Graph, g1: Graph, m: Mod, c: Mod, x: Mod, from: ModState, fails: set<Mod>)
    requires Ready(g, m, from, fails) && c in g[m].bound && g1.Keys == g.Keys
    requires forall y | y in g :: g1[y].bound == g[y].bound && (Ready(g1, y, from, fails) ==> Ready(g, y, from, fails))
    requires x in Reached(g1, c, from, fails)
    ensures x in Reached(g, m, from, fails)
  {
    var p :| Path(p, g1, c, x, from, fails);
    var q := [m] + p;
    forall i | 0 <= i < |q|
      ensures Ready(g, q[i], from, fails)
    {
      assert i > 0 ==> Ready(g1, p[i - 1], from, fails);
    }
    forall i | 0 <= i < |q| - 1
      ensures q[i + 1] in g[q[i]].bound
    {
      if i > 0 {
        assert p[i - 1] in g1 && p[i - 1 + 1] in g1[p[i - 1]].bound;
      }
    }
    assert Path(q, g, m, x, from, fails);
  }

  /** A set that holds the start and is closed under ready bound modules holds all that is reached. */
  lemma {:induction false} ReachedWithin(
      g: Graph, m: Mod, p: seq<Mod>, k: nat, x: Mod, done: set<Mod>, from: ModState, fails: set<Mod>)
    requires Path(p, g, m, x, from, fails) && k < |p| && m in done && done <= g.Keys
    requires forall x, y | x in done && y in g[x].bound && Ready(g, y, from, fails) :: y in done
    ensures p[k] in done
  {
    if k > 0 {
      ReachedWithin(g, m, p, k - 1, x, done, from, fails);
      assert p[k - 1] in g && p[k - 1 + 1] in g[p[k - 1]].bound;
      assert Ready(g, p[k], from, fails);
    }
  }

  lemma PartialStart(g: Graph, g': Graph, m: Mod, from: ModState, to: ModState, fails: set<Mod>)
    requires Ready(g, m, from, fails) && g' == g[m := Snap(to, g[m].tokens - 1, g[m].bound)]
    ensures Partial(g, g', {m}, m, 0, from, to, fails)
  {
    ReachesItself(g, m, from, fails);
  }

  lemma ReadyPart(g: Graph, g1: Graph, done: set<Mod>, m: Mod, i: nat, from: ModState, to: ModState, fails: set<Mod>)
    requires from != to && m in g && i <= |g[m].bound| && Partial(g, g1, done, m, i, from, to, fails)
    ensures g1.Keys == g.Keys && forall y | y in g :: g1[y].bound == g[y].bound
    ensures forall y | y in g :: Ready(g1, y, from, fails) <==> Ready(g, y, from, fails) && y !in done
  {
    forall y | y in g
      ensures g1[y].bound == g[y].bound
      ensures Ready(g1, y, from, fails) <==> Ready(g, y, from, fails) && y !in done
    {
      assert Follows(g, g1, y, y in done, CallsSoFar(g, done, m, i, y), from, to, fails);
      if y in done {
        ReachedIsReady(g, m, y, from, fails);
      }
    }
  }

  /** One more bound module has been called. */
  lemma PartialCall(
      g: Graph, g1: Graph, g2: Graph, done: set<Mod>, m: Mod, i: nat, from: ModState, to: ModState,
      fails: set<Mod>)
    requires from != to && Closed(g) && m in g && i < |g[m].bound|
    requires Partial(g, g1, done, m, i, from, to, fails) && Spread(g1, g2, g[m].bound[i], from, to, fails)
    ensures Partial(g, g2, done + Reached(g1, g[m].bound[i], from, fails), m, i + 1, from, to, fails)
    ensures done !! Reached(g1, g[m].bound[i], from, fails)
  {
    hide Calls, Path, Follows, CallsSoFar, AllCalls, Ready;
    var c := g[m].bound[i];
    var added := Reached(g1, c, from, fails);
    var all := done + added;
    ReadyPart(g, g1, done, m, i, from, to, fails);
    ReachedIsReady(g, m, m, from, fails);
    forall x | x in added
      ensures x in Reached(g, m, from, fails) && x !in done
    {
      ReachedIsReady(g1, c, x, from, fails);
      ReachedBefore(g, g1, m, c, x, from, fails);
    }
    forall x | x in g
      ensures Follows(g, g2, x, x in all, CallsSoFar(g, all, m, i + 1, x), from, to, fails)
    {
      PartialCallOn(g, g1, g2, done, m, i, x, from, to, fails);
    }
    forall x, y | x in all && x != m && y in g[x].bound && Ready(g, y, from, fails)
      ensures y in all
    {
      if x in added && y !in done {
        ReachesOn(g1, c, x, y, from, fails);
      }
    }
    forall y | y in g[m].bound[..i + 1] && Ready(g, y, from, fails)
      ensures y in all
    {
      if y !in g[m].bound[..i] && y !in done {
        assert y == c;
        ReachesItself(g1, c, from, fails);
      }
    }
  }

  lemma PartialCallOn(
      g: Graph, g1: Graph, g2: Graph, done: set<Mod>, m: Mod, i: nat, x: Mod, from: ModState, to: ModState,
      fails: set<Mod>)
    requires from != to && m in g && i < |g[m].bound| && x in g
    requires Partial(g, g1, done, m, i, from, to, fails) && Spread(g1, g2, g[m].bound[i], from, to, fails)
    requires done !! Reached(g1, g[m].bound[i], from, fails)
    requires forall y | y in g :: g1[y].bound == g[y].bound
    ensures var all := done + Reached(g1, g[m].bound[i], from, fails);
            Follows(g, g2, x, x in all, CallsSoFar(g, all, m, i + 1, x), from, to, fails)
  {
    hide Reached, Ready, Calls, CallsSoFar, AllCalls;
    var c := g[m].bound[i];
    var added := Reached(g1, c, from, fails);
    assert Follows(g, g1, x, x in done, CallsSoFar(g, done, m, i, x), from, to, fails);
    assert Follows(g1, g2, x, x in added, AllCalls(g1, c, x, from, fails), from, to, fails);
    CallsGrow(g, g1, done, m, i, x, from, fails);
    if x in added {
      ReachedIsReady(g1, c, x, from, fails);
      ReadyMeans(g1, x, from, fails);
    }
  }

  lemma CallsGrow(g: Graph, g1: Graph, done: set<Mod>, m: Mod, i: nat, x: Mod, from: ModState, fails: set<Mod>)
    requires m in g && i < |g[m].bound| && m in done && done <= g.Keys && g1.Keys == g.Keys
    requires done !! Reached(g1, g[m].bound[i], from, fails) && forall y | y in g :: g1[y].bound == g[y].bound
    ensures CallsSoFar(g, done + Reached(g1, g[m].bound[i], from, fails), m, i + 1, x)
         == CallsSoFar(g, done, m, i, x) + AllCalls(g1, g[m].bound[i], x, from, fails)
  {
    hide Calls;
    var c := g[m].bound[i];
    var added := Reached(g1, c, from, fails);
    CallsJoin(g, g1, done - {m}, added, x);
    assert done + added - {m} == done - {m} + added;
    assert g[m].bound[..i + 1] == g[m].bound[..i] + [c];
  }

  lemma ReadyMeans(g: Graph, x: Mod, from: ModState, fails: set<Mod>)
    requires Ready(g, x, from, fails)
    ensures x in g && g[x].state == from && g[x].tokens > 0 && x !in fails
  {}

  /** When all bound modules have been called, all that is reached has changed. */
  lemma PartialEnd(g: Graph, g': Graph, done: set<Mod>, m: Mod, from: ModState, to: ModState, fails: set<Mod>)
    requires m in g && Partial(g, g', done, m, |g[m].bound|, from, to, fails)
    ensures done == Reached(g, m, from, fails) && Spread(g, g', m, from, to, fails)
  {
    assert g[m].bound[..|g[m].bound|] == g[m].bound;
    forall x | x in Reached(g, m, from, fails)
      ensures x in done
    {
      var p :| Path(p, g, m, x, from, fails);
      ReachedWithin(g, m, p, |p| - 1, x, done, from, fails);
    }
    assert done == Reached(g, m, from, fails);
    forall x | x in g
      ensures CallsSoFar(g, done, m, |g[m].bound|, x) == AllCalls(g, m, x, from, fails)
    {
      CallsWith(g, done, m, x);
    }
  }

  lemma NothingReached(g: Graph, m: Mod, from: ModState, fails: set<Mod>)
    requires m in g && !Ready(g, m, from, fails)
    ensures Reached(g, m, from, fails) == {}
    ensures forall x :: AllCalls(g, m, x, from, fails) == if x == m then 1 else 0
  {
    forall x | x in Reached(g, m, from, fails)
      ensures false
    {
      ReachedIsReady(g, m, x, from, fails);
    }
  }

  /** A call that is refused changes nothing, except for the token when it is the poll plugin that refuses. */
  lemma Refused(g: Graph, g': Graph, m: Mod, from: ModState, to: ModState, fails: set<Mod>)
    requires m in g && !Ready(g, m, from, fails)
    requires g' == if g[m].state == from && g[m].tokens > 0 && m in fails
                   then g[m := g[m].(tokens := g[m].tokens - 1)] else g
    ensures Spread(g, g', m, from, to, fails) && Reached(g, m, from, fails) == {}
  {
    hide Reached, Ready, AllCalls;
    NothingReached(g, m, from, fails);
    ReadyIff(g, m, fails);
  }

  lemma FewerLeft(g: Graph, g': Graph, done: set<Mod>, m: Mod, i: nat, from: ModState, to: ModState, fails: set<Mod>)
    requires from != to && m in g && g[m].state == from && i <= |g[m].bound|
    requires Partial(g, g', done, m, i, from, to, fails)
    ensures |InState(g', from)| < |InState(g, from)|
  {
    forall x | x in InState(g', from)
      ensures x in InState(g, from) - {m}
    {
      assert Follows(g, g', x, x in done, CallsSoFar(g, done, m, i, x), from, to, fails);
    }
    SubsetSize(InState(g', from), InState(g, from) - {m});
  }

  lemma ReadyIff(g: Graph, x: Mod, fails: set<Mod>)
    requires x in g
    ensures forall st :: Ready(g, x, st, fails) <==> g[x].state == st && g[x].tokens > 0 && x !in fails
  {}

  lemma PartialFacts(g: Graph, g1: Graph, done: set<Mod>, m: Mod, i: nat, from: ModState, to: ModState, fails: set<Mod>)
    requires from != to && Closed(g) && m in g && i < |g[m].bound| && Ready(g, m, from, fails)
    requires Partial(g, g1, done, m, i, from, to, fails)
    ensures g[m].bound[i] in g && Closed(g1) && |InState(g1, from)| < |InState(g, from)|
  {
    hide Partial, Reached;
    FewerLeft(g, g1, done, m, i, from, to, fails);
    ReadyPart(g, g1, done, m, i, from, to, fails);
  }

  lemma SpreadBound(g: Graph, g': Graph, m: Mod, x: Mod, from: ModState, to: ModState, fails: set<Mod>)
    requires x in g && Spread(g, g', m, from, to, fails)
    ensures g'.Keys == g.Keys && g'[x].bound == g[x].bound
  {
    hide Reached, AllCalls;
    assert Follows(g, g', x, x in Reached(g, m, from, fails), AllCalls(g, m, x, from, fails), from, to, fails);
  }

  /** `m_mod_pause`: exactly the modules that are reached over running ones are paused, each for one
      token; `running_modules` drops by as many; the search ends on any graph. */
  method Pause(c: Context, m: Mod, ghost mods: set<Mod>, fails: set<Mod>) returns (r: Outcome)
    requires m in mods && Closed(View(mods))
    modifies c, mods
    ensures r == old(Verdict(m.state, m.tokens, Running, m in fails))
    ensures r == NoAccess <==> old(m.state) != Running
    ensures r == TryAgain <==> old(m.state) == Running && old(m.tokens) == 0
    ensures r == PollError <==> old(m.state) == Running && old(m.tokens) > 0 && m in fails
    ensures Spread(old(View(mods)), View(mods), m, Running, Paused, fails)
    ensures c.running == old(c.running) - |old(Reached(View(mods), m, Running, fails))|
    decreases |InState(View(mods), Running)|, 1
  {
    hide Partial, Spread, Reached, Ready, Calls, InState, Closed;
    ghost var g := View(mods);
    ReadyIff(g, m, fails);
    if m.state != Running {
      Refused(g, View(mods), m, Running, Paused, fails);
      return NoAccess;
    }
    if m.tokens == 0 {
      Refused(g, View(mods), m, Running, Paused, fails);
      return TryAgain;
    }
    m.tokens := m.tokens - 1;
    if m in fails {
      Refused(g, View(mods), m, Running, Paused, fails);
      return PollError;
    }
    c.running := c.running - 1;
    m.state := Paused;
    PauseBound(c, m, mods, fails, g);
    return Done;
  }

  /** `M_MOD_BOUND(m_mod_pause)` */
  method PauseBound(c: Context, m: Mod, ghost mods: set<Mod>, fails: set<Mod>, ghost g: Graph)
    requires g.Keys == mods && Closed(g) && Ready(g, m, Running, fails)
    requires View(mods) == g[m := Snap(Paused, g[m].tokens - 1, g[m].bound)]
    modifies c, mods
    ensures Spread(g, View(mods), m, Running, Paused, fails)
    ensures c.running == old(c.running) + 1 - |Reached(g, m, Running, fails)|
    decreases |InState(g, Running)|, 0
  {
    hide Partial, Spread, Reached, Calls, InState, Closed;
    PartialStart(g, View(mods), m, Running, Paused, fails);
    ghost var done := {m};
    for i := 0 to |m.bound|
      invariant m.bound == g[m].bound && c.running == old(c.running) + 1 - |done|
      invariant Partial(g, View(mods), done, m, i, Running, Paused, fails)
    {
      ghost var g1 := View(mods);
      PartialFacts(g, g1, done, m, i, Running, Paused, fails);
      var _ := Pause(c, m.bound[i], mods, fails);
      PartialCall(g, g1, View(mods), done, m, i, Running, Paused, fails);
      SpreadBound(g1, View(mods), g[m].bound[i], m, Running, Paused, fails);
      done := done + Reached(g1, g[m].bound[i], Running, fails);
    }
    PartialEnd(g, View(mods), done, m, Running, Paused, fails);
  }

  /** `m_mod_resume`: the same over paused modules. */
  method Resume(c: Context, m: Mod, ghost mods: set<Mod>, fails: set<Mod>) returns (r: Outcome)
    requires m in mods && Closed(View(mods))
    modifies c, mods
    ensures r == old(Verdict(m.state, m.tokens, Paused, m in fails))
    ensures r == NoAccess <==> old(m.state) != Paused
    ensures r == TryAgain <==> old(m.state) == Paused && old(m.tokens) == 0
    ensures r == PollError <==> old(m.state) == Paused && old(m.tokens) > 0 && m in fails
    ensures Spread(old(View(mods)), View(mods), m, Paused, Running, fails)
    ensures c.running == old(c.running) + |old(Reached(View(mods), m, Paused, fails))|
    decreases |InState(View(mods), Paused)|, 1
  {
    hide Partial, Spread, Reached, Ready, Calls, InState, Closed;
    ghost var g := View(mods);
    ReadyIff(g, m, fails);
    if m.state != Paused {
      Refused(g, View(mods), m, Paused, Running, fails);
      return NoAccess;
    }
    if m.tokens == 0 {
      Refused(g, View(mods), m, Paused, Running, fails);
      return TryAgain;
    }
    m.tokens := m.tokens - 1;
    if m in fails {
      Refused(g, View(mods), m, Paused, Running, fails);
      return PollError;
    }
    c.running := c.running + 1;
    m.state := Running;
    ResumeBound(c, m, mods, fails, g);
    return Done;
  }

  /** `M_MOD_BOUND(m_mod_resume)` */
  method ResumeBound(c: Context, m: Mod, ghost mods: set<Mod>, fails: set<Mod>, ghost g: Graph)
    requires g.Keys == mods && Closed(g) && Ready(g, m, Paused, fails)
    requires View(mods) == g[m := Snap(Running, g[m].tokens - 1, g[m].bound)]
    modifies c, mods
    ensures Spread(g, View(mods), m, Paused, Running, fails)
    ensures c.running == old(c.running) - 1 + |Reached(g, m, Paused, fails)|
    decreases |InState(g, Paused)|, 0
  {
    hide Partial, Spread, Reached, Calls, InState, Closed;
    PartialStart(g, View(mods), m, Paused, Running, fails);
    ghost var done := {m};
    for i := 0 to |m.bound|
      invariant m.bound == g[m].bound && c.running == old(c.running) - 1 + |done|
      invariant Partial(g, View(mods), done, m, i, Paused, Running, fails)
    {
      ghost var g1 := View(mods);
      PartialFacts(g, g1, done, m, i, Paused, Running, fails);
      var _ := Resume(c, m.bound[i], mods, fails);
      PartialCall(g, g1, View(mods), done, m, i, Paused, Running, fails);
      SpreadBound(g1, View(mods), g[m].bound[i], m, Paused, Running, fails);
      done := done + Reached(g1, g[m].bound[i], Paused, fails);
    }
    PartialEnd(g, View(mods), done, m, Paused, Running, fails);
  }

  // ---- there and back --------------------------------------------------------------

  /** Every module that a pause reaches has a second token and can be put back into the poll plugin,
      and none of them has a bound module that was paused already and would be resumed with it. */
  ghost predicate Restorable(g: Graph, m: Mod, pauseFails: set<Mod>, resumeFails: set<Mod>) {
    && (forall x | x in Reached(g, m, Running, pauseFails) :: x in g && g[x].tokens >= 2 && x !in resumeFails)
    && (forall x, y | x in Reached(g, m, Running, pauseFails) && y in g[x].bound :: !Ready(g, y, Paused, resumeFails))
    && !Ready(g, m, Paused, resumeFails)
  }

  ghost predicate SameStates(g: Graph, g': Graph) {
    g'.Keys == g.Keys && forall x | x in g :: g'[x].state == g[x].state
  }

  lemma ReadyWhenPaused(g: Graph, g1: Graph, m: Mod, x: Mod, pauseFails: set<Mod>, resumeFails: set<Mod>)
    requires x in g && Spread(g, g1, m, Running, Paused, pauseFails)
    ensures g1[x].bound == g[x].bound
    ensures x in Reached(g, m, Running, pauseFails) ==>
              (Ready(g1, x, Paused, resumeFails) <==> g[x].tokens >= 2 && x !in resumeFails)
    ensures x !in Reached(g, m, Running, pauseFails) ==>
              (Ready(g1, x, Paused, resumeFails) <==> Ready(g, x, Paused, resumeFails))
  {
    assert Follows(g, g1, x, x in Reached(g, m, Running, pauseFails), AllCalls(g, m, x, Running, pauseFails),
                   Running, Paused, pauseFails);
  }

  /** When all the modules that were paused can be resumed, the way to each of them is open again. */
  lemma {:induction false} WayBack(
      g: Graph, g1: Graph, m: Mod, p: seq<Mod>, x: Mod, pauseFails: set<Mod>, resumeFails: set<Mod>)
    requires Path(p, g, m, x, Running, pauseFails) && Spread(g, g1, m, Running, Paused, pauseFails)
    requires forall y | y in Reached(g, m, Running, pauseFails) :: Ready(g1, y, Paused, resumeFails)
    ensures x in Reached(g1, m, Paused, resumeFails)
    decreases |p|
  {
    assert x in Reached(g, m, Running, pauseFails) by {
      assert Ready(g, p[|p| - 1], Running, pauseFails);
    }
    if |p| == 1 {
      ReachesItself(g1, m, Paused, resumeFails);
    } else {
      var q, y := p[..|p| - 1], p[|p| - 2];
      assert Path(q, g, m, y, Running, pauseFails) by {
        assert forall i | 0 <= i < |q| :: q[i] == p[i];
      }
      WayBack(g, g1, m, q, y, pauseFails, resumeFails);
      assert p[|p| - 2] in g && p[|p| - 2 + 1] in g[y].bound;
      ReadyWhenPaused(g, g1, m, y, pauseFails, resumeFails);
      ReachesOn(g1, m, y, x, Paused, resumeFails);
    }
  }

  lemma AllWaysBack(g: Graph, g1: Graph, m: Mod, pauseFails: set<Mod>, resumeFails: set<Mod>)
    requires Spread(g, g1, m, Running, Paused, pauseFails)
    requires forall y | y in Reached(g, m, Running, pauseFails) :: Ready(g1, y, Paused, resumeFails)
    ensures Reached(g, m, Running, pauseFails) <= Reached(g1, m, Paused, resumeFails)
  {
    forall x | x in Reached(g, m, Running, pauseFails)
      ensures x in Reached(g1, m, Paused, resumeFails)
    {
      var p :| Path(p, g, m, x, Running, pauseFails);
      WayBack(g, g1, m, p, x, pauseFails, resumeFails);
    }
  }

  lemma RestorableReaches(g: Graph, g1: Graph, m: Mod, pauseFails: set<Mod>, resumeFails: set<Mod>)
    requires m in g && Spread(g, g1, m, Running, Paused, pauseFails) && Restorable(g, m, pauseFails, resumeFails)
    ensures Reached(g1, m, Paused, resumeFails) == Reached(g, m, Running, pauseFails)
  {
    var down := Reached(g, m, Running, pauseFails);
    forall x | x in down
      ensures Ready(g1, x, Paused, resumeFails)
    {
      ReadyWhenPaused(g, g1, m, x, pauseFails, resumeFails);
    }
    AllWaysBack(g, g1, m, pauseFails, resumeFails);
    forall x | x in Reached(g1, m, Paused, resumeFails)
      ensures x in down
    {
      ReachedIsReady(g1, m, x, Paused, resumeFails);
      ReadyWhenPaused(g, g1, m, m, pauseFails, resumeFails);
      forall u, v | u in down && v in g1[u].bound && Ready(g1, v, Paused, resumeFails)
        ensures v in down
      {
        ReadyWhenPaused(g, g1, m, u, pauseFails, resumeFails);
        ReadyWhenPaused(g, g1, m, v, pauseFails, resumeFails);
      }
      var p :| Path(p, g1, m, x, Paused, resumeFails);
      ReachedWithin(g1, m, p, |p| - 1, x, down, Paused, resumeFails);
    }
  }

  lemma OnlyRestorable(g: Graph, g1: Graph, g2: Graph, m: Mod, pauseFails: set<Mod>, resumeFails: set<Mod>)
    requires m in g && Spread(g, g1, m, Running, Paused, pauseFails) && Spread(g1, g2, m, Paused, Running, resumeFails)
    requires SameStates(g, g2)
    ensures Restorable(g, m, pauseFails, resumeFails)
  {
    var down, up := Reached(g, m, Running, pauseFails), Reached(g1, m, Paused, resumeFails);
    forall x | x in g
      ensures x in down ==> x in up && g[x].tokens >= 2 && x !in resumeFails && Ready(g1, x, Paused, resumeFails)
      ensures Ready(g, x, Paused, resumeFails) ==> x !in up && Ready(g1, x, Paused, resumeFails)
    {
      assert Follows(g, g1, x, x in down, AllCalls(g, m, x, Running, pauseFails), Running, Paused, pauseFails);
      assert Follows(g1, g2, x, x in up, AllCalls(g1, m, x, Paused, resumeFails), Paused, Running, resumeFails);
      if x in down {
        ReachedIsReady(g, m, x, Running, pauseFails);
        ReachedIsReady(g1, m, x, Paused, resumeFails);
      }
    }
    forall x, y | x in down && y in g[x].bound
      ensures !Ready(g, y, Paused, resumeFails)
    {
      ReadyWhenPaused(g, g1, m, x, pauseFails, resumeFails);
      if Ready(g, y, Paused, resumeFails) {
        ReachesOn(g1, m, x, y, Paused, resumeFails);
      }
    }
    if Ready(g, m, Paused, resumeFails) {
      ReachesItself(g1, m, Paused, resumeFails);
    }
  }

  /** Pausing and then resuming restores the state of every module exactly when the pause was
      restorable. */
  lemma RestoredIff(g: Graph, g1: Graph, g2: Graph, m: Mod, pauseFails: set<Mod>, resumeFails: set<Mod>)
    requires m in g && Spread(g, g1, m, Running, Paused, pauseFails) && Spread(g1, g2, m, Paused, Running, resumeFails)
    ensures SameStates(g, g2) <==> Restorable(g, m, pauseFails, resumeFails)
  {
    if Restorable(g, m, pauseFails, resumeFails) {
      RestorableReaches(g, g1, m, pauseFails, resumeFails);
      var down := Reached(g, m, Running, pauseFails);
      forall x | x in g
        ensures g2[x].state == g[x].state
      {
        assert Follows(g, g1, x, x in down, AllCalls(g, m, x, Running, pauseFails), Running, Paused, pauseFails);
        assert Follows(g1, g2, x, x in down, AllCalls(g1, m, x, Paused, resumeFails), Paused, Running, resumeFails);
        if x in down {
          ReachedIsReady(g, m, x, Running, pauseFails);
        }
      }
    } else if SameStates(g, g2) {
      OnlyRestorable(g, g1, g2, m, pauseFails, resumeFails);
    }
  }

  method PauseThenResume(c: Context, m: Mod, ghost mods: set<Mod>, pauseFails: set<Mod>, resumeFails: set<Mod>)
    requires m in mods && Closed(View(mods))
    modifies c, mods
    ensures SameStates(old(View(mods)), View(mods)) <==> old(Restorable(View(mods), m, pauseFails, resumeFails))
    ensures old(Restorable(View(mods), m, pauseFails, resumeFails)) ==> c.running == old(c.running)
  {
    ghost var g := View(mods);
    var _ := Pause(c, m, mods, pauseFails);
    ghost var g1 := View(mods);
    forall x | x in g
      ensures g1[x].bound == g[x].bound
    {
      ReadyWhenPaused(g, g1, m, x, pauseFails, resumeFails);
    }
    var _ := Resume(c, m, mods, resumeFails);
    RestoredIff(g, g1, View(mods), m, pauseFails, resumeFails);
    if Restorable(g, m, pauseFails, resumeFails) {
      RestorableReaches(g, g1, m, pauseFails, resumeFails);
    }
  }

  /** A running module, with tokens to spare, to which a paused one is bound: pausing and resuming the
      first leaves the second running as well. */
  method ResumesMore(c: Context, a: Mod, b: Mod)
    requires a.state == Running && a.tokens >= 2 && a.bound == [b]
    requires b.state == Paused && b.tokens >= 1 && b.bound == []
    modifies c, a, b
    ensures a.state == Running && b.state == Running && c.running == old(c.running) + 1
  {
    ghost var mods := {a, b};
    ghost var g := View(mods);
    ReachesItself(g, a, Running, {});
    assert Reached(g, a, Running, {}) == {a} by {
      if b in Reached(g, a, Running, {}) {
        ReachedIsReady(g, a, b, Running, {});
      }
    }
    var _ := Pause(c, a, mods, {});
    ghost var g1 := View(mods);
    ReadyWhenPaused(g, g1, a, a, {}, {});
    ReadyWhenPaused(g, g1, a, b, {}, {});
    ReachesItself(g1, a, Paused, {});
    ReachesOn(g1, a, a, b, Paused, {});
    assert Reached(g1, a, Paused, {}) == {a, b};
    var _ := Resume(c, a, mods, {});
    assert Follows(g1, View(mods), a, true, AllCalls(g1, a, a, Paused, {}), Paused, Running, {});
    assert Follows(g1, View(mods), b, true, AllCalls(g1, a, b, Paused, {}), Paused, Running, {});
  }
}
