/** Putting events aside and taking them up again, with the references that keep them alive. */
module Stash {
  import opened Collections
  import opened States
  import opened Queue

  /** An event, with the priority of its source and its reference count. */
  class Event {
    const high: bool
    var refs: nat
    var freed: bool

    constructor (high: bool)
      ensures this.high == high && refs == 1 && !freed
    {
      this.high, refs, freed := high, 1, false;
    }

    /** `m_mem_ref` */
    method Ref()
      requires !freed
      modifies `refs
      ensures refs == old(refs) + 1
    {
      refs := refs + 1;
    }

    /** `m_mem_unref`: the last reference frees the memory. */
    method Unref()
      requires !freed && refs > 0
      modifies this
      ensures refs == old(refs) - 1 && (freed <==> refs == 0)
    {
      refs := refs - 1;
      freed := refs == 0;
    }
  }

  /** The queued events are alive, and hold a reference for each of their places in the queue. */
  ghost predicate Held(events: seq<Event>)
    reads events
  {
    forall e | e in events :: !e.freed && e.refs >= multiset(events)[e]
  }

  /** How many events `m_mod_unstash` takes up: one less than it is asked for, unless there are fewer. */
  function Moved(len: nat, stashed: nat): nat
    requires len > 0
  {
    if len - 1 < stashed then len - 1 else stashed
  }

  class Stasher {
    var running: bool
    var tokens: nat
    const stashed: Queue<Event>
    ghost var received: seq<seq<Event>>  // the calls of on_evt

    constructor (tokens: nat)
      ensures stashed.Valid() && stashed.cells == [] && fresh(stashed)
      ensures running && this.tokens == tokens && received == []
    {
      running, this.tokens, received := true, tokens, [];
      stashed := new Queue();
    }

    ghost predicate Valid()
      reads this, stashed, stashed.cells, stashed.Contents()
    {
      stashed.Valid() && Held(stashed.Contents())
    }

    /** `m_mod_stash`: the token is gone even when the event may not be stashed. */
    method Stash(e: Event) returns (r: Outcome)
      requires Valid() && !e.freed
      modifies `tokens, stashed, stashed.cells, e`refs
      ensures Valid()
      ensures r == old(if !running then NoAccess else if tokens == 0 then TryAgain
                       else if e.high then NotPermitted else Done)
      ensures tokens == old(if running && tokens > 0 then tokens - 1 else tokens)
      ensures stashed.Contents() == old(stashed.Contents()) + if r == Done then [e] else []
      ensures e.refs == old(e.refs) + if r == Done then 1 else 0
    {
      if !running {
        return NoAccess;
      }
      if tokens == 0 {
        return TryAgain;
      }
      tokens := tokens - 1;
      if e.high {
        return NotPermitted;
      }
      Keep(e);
      return Done;
    }

    method Keep(e: Event)
      requires Valid() && !e.freed
      modifies stashed, stashed.cells, e`refs
      ensures Valid() && stashed.Contents() == old(stashed.Contents()) + [e] && e.refs == old(e.refs) + 1
    {
      hide Queue.Valid, Queue.Contents;
      ghost var was := stashed.Contents();
      assert Held(was);
      Share(stashed, e);
      HeldMore(was, e);
    }

    /** The loop of `m_mod_unstash`: the first events move, in order, to a queue of their own. Each holds
        as many references as before, and none is freed on the way. */
    method TakeUp(len: nat) returns (unstashed: Queue<Event>)
      requires Valid() && len > 0
      modifies stashed, stashed.cells, stashed.Contents()
      ensures stashed.Valid() && unstashed.Valid() && fresh(unstashed) && fresh(unstashed.cells)
      ensures Apart(stashed.cells, unstashed.cells)
      ensures unstashed.Contents() == old(stashed.Contents())[..Moved(len, |old(stashed.cells)|)]
      ensures stashed.Contents() == old(stashed.Contents())[Moved(len, |old(stashed.cells)|)..]
      ensures forall e | e in old(stashed.Contents()) :: e.refs == old(e.refs) && e.freed == old(e.freed)
    {
      hide Queue.Valid, Queue.Contents, Queue.Chained, Queue.TailFits, Itr.Valid;
      ghost var was := stashed.Contents();
      assert Held(was);
      unstashed := new Queue();
      QueueParts(stashed);
      if stashed.len == 0 {
        return;
      }
      var itr := new Itr(stashed);
      var idx, more := 0, true;
      while more
        invariant fresh(itr) && fresh(unstashed) && fresh(unstashed.cells) && itr.q == stashed
        invariant idx <= |was| && stashed.cells == old(stashed.cells)[idx..] && Apart(stashed.cells, unstashed.cells)
        invariant stashed.Valid() && unstashed.Valid() && itr.Valid() && itr.k == 0 && !itr.removed
        invariant idx < len && unstashed.Contents() == was[..idx] && stashed.Contents() == was[idx..]
        invariant forall e | e in was :: e.refs == old(e.refs) && !e.freed && e.refs > 0
        invariant more <==> stashed.cells != []
        decreases |was| - idx, more
      {
        if idx + 1 == len {
          break;
        }
        QueueParts(stashed);
        assert stashed.Contents()[0] == was[idx] && was[idx] in was;
        more := TakeOne(itr, unstashed);
        idx := idx + 1;
      }
    }

    /** `m_mod_unstash`: what was stashed first is received first, in one call; the rest stays stashed, in
        order; with the call the received events lose the references that the stash held. All of it,
        or as much as was asked for, is received exactly when less was stashed than asked for. */
    method Unstash(len: nat) returns (r: Outcome, processed: nat)
      requires Valid()
      modifies this, stashed, stashed.cells, stashed.Contents()
      ensures Valid()
      ensures r == old(if !running then NoAccess else if len == 0 then Invalid
                       else if tokens == 0 then TryAgain else Done)
      ensures tokens == old(tokens) - if r == Done then 1 else 0
      ensures processed == if r != Done then 0
                           else if |old(stashed.Contents())| < len then |old(stashed.Contents())| else len - 1
      ensures r == Done ==> (processed == Min(len, |old(stashed.Contents())|) <==> |old(stashed.Contents())| < len)
      ensures processed <= |old(stashed.Contents())| && stashed.Contents() == old(stashed.Contents())[processed..]
      ensures received == old(received) + if processed == 0 then [] else [old(stashed.Contents())[..processed]]
      ensures forall e | e in old(stashed.Contents()) ::
                e.refs == old(e.refs) - multiset(old(stashed.Contents())[..processed])[e]
    {
      ghost var was := stashed.Contents();
      assert was[..0] == [] && was[0..] == was;
      if !running {
        return NoAccess, 0;
      }
      if len == 0 {
        return Invalid, 0;
      }
      if tokens == 0 {
        return TryAgain, 0;
      }
      tokens := tokens - 1;
      processed := Deliver(len);
      return Done, processed;
    }

    method Deliver(len: nat) returns (processed: nat)
      requires Valid() && len > 0
      modifies `received, stashed, stashed.cells, stashed.Contents()
      ensures Valid()
      ensures processed == Moved(len, |old(stashed.Contents())|)
      ensures stashed.Contents() == old(stashed.Contents())[processed..]
      ensures received == old(received) + if processed == 0 then [] else [old(stashed.Contents())[..processed]]
      ensures forall e | e in old(stashed.Contents()) ::
                e.refs == old(e.refs) - multiset(old(stashed.Contents())[..processed])[e]
    {
      hide Queue.Valid, Queue.Contents;
      ghost var was := stashed.Contents();
      QueueParts(stashed);
      assert Held(was);
      var unstashed := TakeUp(len);
      QueueParts(unstashed);
      processed := unstashed.len;
      assert was == was[..processed] + was[processed..];
      CallBack(unstashed, was);
    }

    /** `call_pubsub_cb` */
    method CallBack(evts: Queue<Event>, ghost was: seq<Event>)
      requires evts.Valid() && stashed.Valid() && evts != stashed && Apart(stashed.cells, evts.cells)
      requires was == evts.Contents() + stashed.Contents() && Held(was)
      modifies `received, evts, was
      ensures Valid() && stashed.Contents() == old(stashed.Contents())
      ensures received == old(received) + if old(evts.cells) == [] then [] else [old(evts.Contents())]
      ensures forall e | e in was :: e.refs == old(e.refs) - multiset(old(evts.Contents()))[e]
    {
      hide Queue.Valid, Queue.Contents;
      QueueParts(evts);
      if evts.len > 0 {
        received := received + [evts.Contents()];
      }
      ghost var moved, rest := evts.Contents(), stashed.Contents();
      Free(evts, was);
      assert stashed.Contents() == rest && stashed.Valid();
      HeldRest(moved, rest);
    }
  }

  function Min(a: nat, b: nat): nat {
    if a < b then a else b
  }

  lemma QueueParts<T>(q: Queue<T>)
    requires q.Valid()
    ensures q.Chained() && q.TailFits() && (q.len == 0 <==> q.cells == []) && |q.Contents()| == |q.cells|
  {}

  lemma HeldMore(was: seq<Event>, e: Event)
    requires forall x | x in was :: !x.freed && x.refs >= multiset(was)[x] + if x == e then 1 else 0
    requires !e.freed && e.refs >= 1
    ensures Held(was + [e])
  {
    forall x | x in was + [e]
      ensures !x.freed && x.refs >= multiset(was + [e])[x]
    {
      assert x in was || multiset(was)[x] == 0;
    }
  }

  ghost predicate Apart<T>(xs: seq<Elem<T>>, ys: seq<Elem<T>>) {
    forall i | 0 <= i < |xs| :: xs[i] !in ys
  }

  lemma WithoutFirst<T>(s: seq<T>)
    requires s != []
    ensures RemoveAt(s, 0) == s[1..]
  {}

  /** `m_queue_enqueue(to, m_mem_ref(evt))` */
  method Share(to: Queue<Event>, evt: Event)
    requires to.Valid() && !evt.freed
    modifies to, to.cells, evt`refs
    ensures to.Valid() && to.Contents() == old(to.Contents()) + [evt] && evt.refs == old(evt.refs) + 1
    ensures exists e :: fresh(e) && to.cells == old(to.cells) + [e]
  {
    hide Queue.Valid, Queue.Contents;
    evt.Ref();
    QueueParts(to);
    to.Enqueue(evt);
  }

  /** One turn of that loop. */
  method TakeOne(itr: Itr<Event>, to: Queue<Event>) returns (more: bool)
    requires itr.q.Valid() && to.Valid() && itr.q != to && Apart(itr.q.cells, to.cells)
    requires itr.Valid() && itr.k == 0 && !itr.removed && itr.q.cells != []
    requires !itr.q.Contents()[0].freed && itr.q.Contents()[0].refs > 0
    modifies itr, itr.q, itr.q.cells, to, to.cells, itr.q.Contents()[0]
    ensures itr.q.Valid() && to.Valid() && itr.Valid() && itr.k == 0 && !itr.removed
    ensures itr.q.cells == old(itr.q.cells)[1..] && itr.q.Contents() == old(itr.q.Contents())[1..]
    ensures to.Contents() == old(to.Contents()) + [old(itr.q.Contents()[0])]
    ensures exists e :: fresh(e) && to.cells == old(to.cells) + [e]
    ensures old(itr.q.Contents()[0]).refs == old(itr.q.Contents()[0].refs) && !old(itr.q.Contents()[0]).freed
    ensures more <==> itr.q.cells != []
  {
    hide Queue.Valid, Queue.Contents, Queue.Chained, Queue.TailFits, Itr.Valid, RemoveAt;
    ghost var q, was := itr.q, itr.q.Contents();
    QueueParts(q);
    ghost var refs := was[0].refs;
    assert refs > 0 && !was[0].freed;
    WithoutFirst(was);
    WithoutFirst(q.cells);
    var evt := itr.Get();
    assert evt == was[0] && evt.refs == refs && !evt.freed;
    Share(to, evt);
    QueueParts(q);
    assert q.Contents() == was && evt.refs == refs + 1;
    assert Apart(q.cells, to.cells);
    var removed := itr.Remove();
    assert removed == evt && evt.refs == refs + 1;
    removed.Unref();
    more := itr.Next();
    assert evt.refs == refs && !evt.freed;
  }

  lemma HeldRest(moved: seq<Event>, rest: seq<Event>)
    requires forall e | e in moved + rest :: e.refs >= multiset(rest)[e] && (e.freed <==> e.refs == 0)
    ensures Held(rest)
  {}

  /** Freeing a queue of events drops the references that it holds, and no others. */
  method Free(q: Queue<Event>, ghost all: seq<Event>)
    requires q.Valid() && Held(all) && q.Contents() <= all
    modifies q, all
    ensures q.Valid() && q.cells == []
    ensures forall e | e in all :: e.refs == old(e.refs) - multiset(old(q.Contents()))[e] && (e.freed <==> e.refs == 0)
  {
    hide Queue.Valid, Queue.Contents;
    ghost var was := q.Contents();
    ghost var k := 0;
    while q.len > 0
      invariant q.Valid() && k <= |was| && q.Contents() == was[k..]
      invariant forall e | e in all :: e.refs == old(e.refs) - multiset(was[..k])[e] && (e.freed <==> e.refs == 0)
      decreases |was| - k
    {
      QueueParts(q);
      StillHeld(all, was, k);
      OneMore(was, k);
      var evt := q.Dequeue();
      assert evt.value == was[k] && q.Contents() == was[k + 1..];
      evt.value.Unref();
      k := k + 1;
    }
    QueueParts(q);
    assert was[..k] == was;
  }

  lemma OneMore(was: seq<Event>, k: nat)
    requires k < |was|
    ensures forall e :: multiset(was[..k + 1])[e] == multiset(was[..k])[e] + if e == was[k] then 1 else 0
  {
    assert was[..k + 1] == was[..k] + [was[k]];
  }

  lemma StillHeld(all: seq<Event>, was: seq<Event>, k: nat)
    requires was <= all && k < |was|
    ensures was[k] in all && multiset(was[..k])[was[k]] < multiset(all)[was[k]]
  {
    assert all == was[..k] + [was[k]] + was[k + 1..] + all[|was|..];
  }
}
