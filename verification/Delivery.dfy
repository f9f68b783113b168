/** How events reach a module: priorities, batches, and the token bucket that limits its actions. */
module Delivery {
  import opened States

  const UINT64_MAX: nat := 0xFFFF_FFFF_FFFF_FFFF
  const SIZE_MAX: nat := 0xFFFF_FFFF_FFFF_FFFF
  const BILLION: nat := 1_000_000_000

  /** The source of an event. Messages that were told or broadcast have none. The timers of the batch
      and of the token bucket are internal, and so may others be. */
  datatype Source = NoSource | Low | Norm | High | BatchTimer | TokenTimer | OtherInternal {
    predicate Internal() { BatchTimer? || TokenTimer? || OtherInternal? }
  }

  datatype Evt = Evt(src: Source, payload: nat)

  /** The fields that the operations below read and write. A timer of 0 ns is not set. */
  datatype Box = Box(batchLen: nat, batchNs: nat, pending: seq<Evt>, tokens: nat, burst: nat, bucketNs: nat)

  /** What can happen to a module. Whether a timer source can be registered is decided elsewhere. */
  datatype Action =
    | Arrives(e: Evt) | Acts | SetBatchSize(len: nat) | SetBatchTimeout(ns: nat, registers: bool)
    | SetTokenBucket(rate: nat, burst: nat, registers: bool) | Resets

  function Fresh(): Box {
    Box(0, 0, [], UINT64_MAX, UINT64_MAX, 0)
  }

  // ---- the effect of one action ----------------------------------------------------

  /** The queue right after the event came in. */
  function Queued(b: Box, e: Evt): seq<Evt> {
    if e.src.Internal() then b.pending else b.pending + [e]
  }

  /** Whether the event makes the module receive what is queued. */
  predicate Due(b: Box, e: Evt) {
    && !e.src.Low? && Queued(b, e) != []
    && (e.src.BatchTimer? || e.src.High? || |Queued(b, e)| >= b.batchLen)
  }

  function Spend(b: Box): Box {
    if b.tokens > 0 then b.(tokens := b.tokens - 1) else b
  }

  /** The old timer is removed, if there is one and a token left to pay for it. */
  function DropTimer(b: Box, ns: nat): Box {
    if ns != 0 then Spend(b) else b
  }

  function Configured(b: Box, rate: nat, burst: nat): Box {
    if rate == 0 then b.(tokens := UINT64_MAX, burst := UINT64_MAX, bucketNs := 0)
    else b.(tokens := burst, burst := burst, bucketNs := BILLION / rate)
  }

  function Step(b: Box, a: Action): Box {
    match a
    case Arrives(e) =>
      b.(pending := if Due(b, e) then [] else Queued(b, e),
         tokens := if e.src.TokenTimer? && b.tokens < b.burst then b.tokens + 1 else b.tokens)
    case Acts => Spend(b)
    case SetBatchSize(len) => if b.tokens > 0 then Spend(b).(batchLen := len) else b
    case SetBatchTimeout(ns, _) =>
      var dropped := DropTimer(b, b.batchNs).(batchNs := ns);
      if ns == 0 then dropped else Spend(dropped.(batchLen := if b.batchLen == 0 then SIZE_MAX else b.batchLen))
    case SetTokenBucket(rate, burst, _) =>
      if rate > BILLION then b
      else if rate == 0 then Configured(b, 0, burst) else Spend(Configured(b, rate, burst))
    case Resets => Fresh()
  }

  /** The batches given to the module's callback: none or one. */
  function Batches(b: Box, a: Action): seq<seq<Evt>> {
    if a.Arrives? && Due(b, a.e) then [Queued(b, a.e)] else []
  }

  function Paid(tokens: nat, registers: bool): Outcome {
    if tokens == 0 then TryAgain else if registers then Done else PollError
  }

  function Answer(b: Box, a: Action): Outcome {
    match a
    case Acts => if b.tokens == 0 then TryAgain else Done
    case SetBatchSize(_) => if b.tokens == 0 then TryAgain else Done
    case SetBatchTimeout(ns, registers) => if ns == 0 then Done else Paid(DropTimer(b, b.batchNs).tokens, registers)
    case SetTokenBucket(rate, burst, registers) =>
      if rate > BILLION then Invalid else if rate == 0 then Done else Paid(burst, registers)
    case _ => Done
  }

  class Mailbox {
    var batchLen: nat
    var batchNs: nat
    var events: seq<Evt>
    var tokens: nat
    var burst: nat
    var bucketNs: nat
    var received: seq<seq<Evt>>  // the calls of on_evt

    constructor ()
      ensures View() == Fresh() && received == []
    {
      batchLen, batchNs, events, tokens, burst, bucketNs, received := 0, 0, [], UINT64_MAX, UINT64_MAX, 0, [];
    }

    function View(): Box
      reads this
    {
      Box(batchLen, batchNs, events, tokens, burst, bucketNs)
    }

    /** `push_evt`. An event of high priority is delivered at once with all that is queued before it; one of
        low priority is only queued; any other is queued, and delivered with the rest once the batch size
        is reached. The batch timer delivers what is queued; any other internal event does so only when
        the batch size is reached, and that of the token bucket refills one token. */
    method PushEvt(e: Evt)
      modifies this
      ensures View() == Step(old(View()), Arrives(e))
      ensures received == old(received) + Batches(old(View()), Arrives(e))
      ensures e.src.Low? ==> events == old(events) + [e] && received == old(received)
      ensures e.src.High? ==> Delivers(old(events) + [e], old(received))
      ensures e.src.Norm? || e.src.NoSource? ==>
                if |old(events)| + 1 >= batchLen then Delivers(old(events) + [e], old(received))
                else events == old(events) + [e] && received == old(received)
      ensures e.src.BatchTimer? || e.src.TokenTimer? || e.src.OtherInternal? ==>
                if old(events) != [] && (e.src.BatchTimer? || |old(events)| >= batchLen)
                then Delivers(old(events), old(received)) else events == old(events) && received == old(received)
      ensures tokens == old(tokens) + if e.src.TokenTimer? && old(tokens) < burst then 1 else 0
      ensures (batchLen, batchNs, burst, bucketNs) == old((batchLen, batchNs, burst, bucketNs))
    {
      var force := false;
      if e.src.Internal() {
        force := e.src.BatchTimer?;
        if e.src.TokenTimer? {
          if tokens < burst {
            tokens := tokens + 1;
          }
        }
      } else {
        events := events + [e];
        if e.src.High? {
          force := true;
        } else if e.src.Low? {
          return;
        }
      }
      if |events| == 0 {
        return;
      }
      if force || |events| >= batchLen {
        var evts := events;
        events := [];
        received := received + [evts];
      }
    }

    /** The module receives the batch, and nothing is queued any more. */
    predicate Delivers(batch: seq<Evt>, before: seq<seq<Evt>>)
      reads this
    {
      received == before + [batch] && events == []
    }

    /** `M_MOD_CONSUME_TOKEN`, as it stands in every limited call */
    method ConsumeToken() returns (r: Outcome)
      modifies `tokens
      ensures View() == Step(old(View()), Acts) && r == Answer(old(View()), Acts)
      ensures r == if old(tokens) == 0 then TryAgain else Done
      ensures tokens == old(tokens) - if r == Done then 1 else 0
    {
      if tokens == 0 {
        return TryAgain;
      }
      tokens := tokens - 1;
      return Done;
    }

    /** `m_mod_set_batch_size` */
    method ChangeBatchSize(len: nat) returns (r: Outcome)
      modifies this
      ensures View() == Step(old(View()), SetBatchSize(len)) && r == Answer(old(View()), SetBatchSize(len))
      ensures r == if old(tokens) == 0 then TryAgain else Done
      ensures batchLen == if r == Done then len else old(batchLen)
      ensures tokens == old(tokens) - if r == Done then 1 else 0
      ensures (batchNs, events, burst, bucketNs, received) == old((batchNs, events, burst, bucketNs, received))
    {
      r := ConsumeToken();
      if r == Done {
        batchLen := len;
      }
    }

    /** The part of `register_mod_src` for a timer that matters here */
    method RegisterTimer(registers: bool) returns (r: Outcome)
      modifies `tokens
      ensures View() == Spend(old(View())) && r == Paid(old(tokens), registers)
    {
      r := ConsumeToken();
      if r == Done && !registers {
        r := PollError;
      }
    }

    /** `m_mod_set_batch_timeout`: one token for an old timer and one for a new one, as far as there are any.
        A size of 0 becomes one that is never reached. */
    method ChangeBatchTimeout(ns: nat, registers: bool) returns (r: Outcome)
      modifies this
      ensures View() == Step(old(View()), SetBatchTimeout(ns, registers))
      ensures r == Answer(old(View()), SetBatchTimeout(ns, registers)) && received == old(received)
      ensures var due := (if old(batchNs) != 0 then 1 else 0) + (if ns != 0 then 1 else 0);
              && tokens == (if old(tokens) < due then 0 else old(tokens) - due)
              && (r == TryAgain <==> ns != 0 && old(tokens) < due)
              && (r == PollError <==> ns != 0 && old(tokens) >= due && !registers)
      ensures batchNs == ns
      ensures batchLen == if ns != 0 && old(batchLen) == 0 then 0xFFFF_FFFF_FFFF_FFFF else old(batchLen)
      ensures (events, burst, bucketNs) == old((events, burst, bucketNs))
    {
      if batchNs != 0 {
        var _ := ConsumeToken();
      }
      batchNs := ns;
      if ns != 0 {
        if batchLen == 0 {
          batchLen := SIZE_MAX;
        }
        r := RegisterTimer(registers);
        return;
      }
      return Done;
    }

    /** `m_mod_set_tokenbucket`. The timer's period is the longest in which it ticks at least `rate` times a
        second; the call pays from the new bucket. */
    method ChangeTokenBucket(rate: nat, size: nat, registers: bool) returns (r: Outcome)
      modifies this
      ensures View() == Step(old(View()), SetTokenBucket(rate, size, registers))
      ensures r == Answer(old(View()), SetTokenBucket(rate, size, registers)) && received == old(received)
      ensures r == Invalid <==> rate > 1_000_000_000
      ensures r == Invalid ==> View() == old(View())
      ensures rate == 0 ==> r == Done && bucketNs == 0 && tokens == burst == 0xFFFF_FFFF_FFFF_FFFF
      ensures 0 < rate && r != Invalid ==>
                && rate * bucketNs <= 1_000_000_000 < rate * (bucketNs + 1) && burst == size
                && tokens == (if size == 0 then 0 else size - 1)
                && r == if size == 0 then TryAgain else if registers then Done else PollError
      ensures (batchLen, batchNs, events) == old((batchLen, batchNs, events))
    {
      if rate > BILLION {
        return Invalid;
      }
      if bucketNs != 0 {
        var _ := ConsumeToken();
      }
      if rate == 0 {
        burst, tokens, bucketNs := UINT64_MAX, UINT64_MAX, 0;
        return Done;
      }
      burst, tokens, bucketNs := size, size, BILLION / rate;
      LongestPeriod(rate);
      r := RegisterTimer(registers);
    }

    /** The part of `reset_module` for these fields */
    method Reset()
      modifies this
      ensures View() == Step(old(View()), Resets) && received == old(received)
      ensures events == [] && batchLen == batchNs == bucketNs == 0 && tokens == burst == 0xFFFF_FFFF_FFFF_FFFF
    {
      events := [];
      batchLen, batchNs := 0, 0;
      burst, tokens, bucketNs := UINT64_MAX, UINT64_MAX, 0;
    }
  }

  lemma LongestPeriod(rate: nat)
    requires rate > 0
    ensures rate * (BILLION / rate) <= BILLION < rate * (BILLION / rate + 1)
  {
    assert BILLION == rate * (BILLION / rate) + BILLION % rate;
  }

  // ---- runs ------------------------------------------------------------------------

  function After(b: Box, run: seq<Action>): Box
    decreases |run|
  {
    if run == [] then b else After(Step(b, run[0]), run[1..])
  }

  function Received(b: Box, run: seq<Action>): seq<seq<Evt>>
    decreases |run|
  {
    if run == [] then [] else Batches(b, run[0]) + Received(Step(b, run[0]), run[1..])
  }

  function Flatten(batches: seq<seq<Evt>>): seq<Evt> {
    if batches == [] then [] else batches[0] + Flatten(batches[1..])
  }

  function Came(a: Action): seq<Evt> {
    if a.Arrives? && !a.e.src.Internal() then [a.e] else []
  }

  /** The events that are not internal, in the order of their arrival. */
  function Arrived(run: seq<Action>): seq<Evt> {
    if run == [] then [] else Came(run[0]) + Arrived(run[1..])
  }

  lemma {:induction false} FlattenConcat(xs: seq<seq<Evt>>, ys: seq<seq<Evt>>)
    ensures Flatten(xs + ys) == Flatten(xs) + Flatten(ys)
  {
    if xs == [] {
      assert xs + ys == ys;
    } else {
      assert (xs + ys)[1..] == xs[1..] + ys;
      FlattenConcat(xs[1..], ys);
    }
  }

  lemma StepConserves(b: Box, a: Action)
    requires !a.Resets?
    ensures Flatten(Batches(b, a)) + Step(b, a).pending == b.pending + Came(a)
  {
    if Batches(b, a) != [] {
      assert Batches(b, a)[1..] == [];
    }
  }

  /** Between resets, what the module has received, followed by what is queued, is what has arrived:
      nothing is lost, doubled or reordered. */
  lemma {:induction false} DeliveryConserves(b: Box, run: seq<Action>)
    requires forall i | 0 <= i < |run| :: !run[i].Resets?
    ensures Flatten(Received(b, run)) + After(b, run).pending == b.pending + Arrived(run)
    decreases |run|
  {
    hide Step, Batches, Flatten;
    if run != [] {
      var b1 := Step(b, run[0]);
      DeliveryConserves(b1, run[1..]);
      StepConserves(b, run[0]);
      FlattenConcat(Batches(b, run[0]), Received(b1, run[1..]));
      Regroup(Flatten(Batches(b, run[0])), Flatten(Received(b1, run[1..])), After(b1, run[1..]).pending,
              b1.pending, Arrived(run[1..]));
      Regroup(b.pending, Came(run[0]), Arrived(run[1..]), [], []);
    } else {
      FlattenNothing();
    }
  }

  lemma FlattenNothing()
    ensures Flatten([]) == []
  {}

  lemma Regroup<T>(a: seq<T>, b: seq<T>, c: seq<T>, d: seq<T>, e: seq<T>)
    ensures (a + b) + c == a + (b + c)
    ensures b + c == d + e ==> (a + b) + c == (a + d) + e
  {
    assert a + (d + e) == (a + d) + e;
  }

  predicate EndsNotLow(batch: seq<Evt>) {
    batch != [] && !batch[|batch| - 1].src.Low?
  }

  /** As long as no internal event ticks, every batch ends in an event that is not of low priority. */
  lemma {:induction false} BatchesEndNotLow(b: Box, run: seq<Action>, i: nat)
    requires forall k | 0 <= k < |run| && run[k].Arrives? :: !run[k].e.src.Internal()
    requires i < |Received(b, run)|
    ensures EndsNotLow(Received(b, run)[i])
    decreases |run|
  {
    if i >= |Batches(b, run[0])| {
      BatchesEndNotLow(Step(b, run[0]), run[1..], i - |Batches(b, run[0])|);
    }
  }

  /** An event of low priority is meant to wait for one of higher priority. It does, except when it is
      the last one queued and an internal event makes the queue due: not only the batch timer does so,
      but any internal event does once the batch size is reached. */
  lemma LowWaitsUnlessTick(b: Box, e: Evt)
    requires Due(b, e)
    ensures !EndsNotLow(Batches(b, Arrives(e))[0]) <==>
            e.src.Internal() && b.pending[|b.pending| - 1].src.Low? && (e.src.BatchTimer? || |b.pending| >= b.batchLen)
  {
    assert Queued(b, e) != [];
  }

  lemma TokenTickDeliversLow(low: Evt)
    requires low.src.Low?
    ensures Received(Fresh(), [Arrives(low), Arrives(Evt(TokenTimer, 0))]) == [[low]]
  {
    var tick := Arrives(Evt(TokenTimer, 0));
    assert [Arrives(low), tick][1..] == [tick] && [tick][1..] == [];
    var b := Step(Fresh(), Arrives(low));
    assert b.pending == [low];
    assert Batches(Fresh(), Arrives(low)) == [] && Batches(b, tick) == [[low]];
    assert Received(b, [tick]) == Batches(b, tick) + Received(Step(b, tick), []);
  }

  predicate Within(b: Box) {
    b.pending == [] || |b.pending| < b.batchLen
  }

  /** What an event leaves queued: nothing, after one of high priority or a tick of the batch timer;
      less than a batch, after any other but one of low priority, which is only queued. */
  lemma WhatStaysQueued(b: Box, e: Evt)
    ensures e.src.High? || e.src.BatchTimer? ==> Step(b, Arrives(e)).pending == []
    ensures !e.src.Low? ==> Within(Step(b, Arrives(e)))
    ensures e.src.Low? ==> Step(b, Arrives(e)).pending == b.pending + [e]
  {}

  /** Events of normal priority or without a source, internal ticks other than of the batch timer, and calls
      that do not touch batching. */
  predicate Plain(run: seq<Action>) {
    forall k | 0 <= k < |run| ::
      if run[k].Arrives? then run[k].e.src !in {Low, High, BatchTimer} else run[k].Acts? || run[k].SetTokenBucket?
  }

  /** When only such events come in, the queue never outgrows the batch, and every batch is exactly of the
      size in force (or of one event, for 0). */
  lemma {:induction false} BatchesAreFull(b: Box, run: seq<Action>, i: nat)
    requires Plain(run) && Within(b) && i < |Received(b, run)|
    ensures |Received(b, run)[i]| == if b.batchLen == 0 then 1 else b.batchLen
    decreases |run|
  {
    if i >= |Batches(b, run[0])| {
      BatchesAreFull(Step(b, run[0]), run[1..], i - |Batches(b, run[0])|);
    }
  }

  /** The size that a module asks for is the size of all batches that it gets, when less was queued. */
  lemma BatchSizeAsAsked(b: Box, len: nat, run: seq<Action>, i: nat)
    requires b.tokens > 0 && Plain(run) && (b.pending == [] || |b.pending| < len)
    requires i < |Received(Step(b, SetBatchSize(len)), run)|
    ensures |Received(Step(b, SetBatchSize(len)), run)[i]| == if len == 0 then 1 else len
  {
    BatchesAreFull(Step(b, SetBatchSize(len)), run, i);
  }

  /** Events that a batch timer alone will deliver. */
  predicate Patient(run: seq<Action>) {
    forall k | 0 <= k < |run| ::
      if run[k].Arrives? then run[k].e.src !in {High, BatchTimer} else run[k].Acts? || run[k].SetTokenBucket?
  }

  lemma BelowSizeStep(b: Box, a: Action)
    requires Patient([a]) && |b.pending| + 1 < b.batchLen
    ensures Batches(b, a) == [] && Step(b, a).batchLen == b.batchLen
    ensures Step(b, a).pending == b.pending + Came(a) && |Came(a)| <= 1
  {
    assert Patient([a]) && [a][0] == a;
  }

  lemma PatientParts(run: seq<Action>)
    requires Patient(run) && run != []
    ensures Patient([run[0]]) && Patient(run[1..])
  {}

  lemma {:induction false} BelowSizeWaits(b: Box, run: seq<Action>)
    requires Patient(run) && |b.pending| + |run| < b.batchLen
    ensures Received(b, run) == [] && After(b, run).pending == b.pending + Arrived(run)
    decreases |run|
  {
    hide Step, Batches, Came, Patient;
    if run != [] {
      PatientParts(run);
      BelowSizeStep(b, run[0]);
      BelowSizeWaits(Step(b, run[0]), run[1..]);
      Regroup(b.pending, Came(run[0]), Arrived(run[1..]), [], []);
    }
  }

  /** With a timeout and no size, fewer than 2^64 - 1 events wait for the timer, which then delivers all of
      them in one batch. */
  lemma TimeoutAloneBatches(b: Box, ns: nat, registers: bool, run: seq<Action>, tick: Evt)
    requires b.batchLen == 0 && ns != 0 && Patient(run) && |b.pending| + |run| < 0xFFFF_FFFF_FFFF_FFFF
    requires tick.src.BatchTimer?
    ensures var b1 := Step(b, SetBatchTimeout(ns, registers));
            && Received(b1, run) == []
            && Batches(After(b1, run), Arrives(tick))
               == if b.pending + Arrived(run) == [] then [] else [b.pending + Arrived(run)]
  {
    var b1 := Step(b, SetBatchTimeout(ns, registers));
    assert b1.pending == b.pending && b1.batchLen == SIZE_MAX;
    BelowSizeWaits(b1, run);
    TickDelivers(After(b1, run), tick);
  }

  lemma TickDelivers(b: Box, tick: Evt)
    requires tick.src.BatchTimer?
    ensures Batches(b, Arrives(tick)) == if b.pending == [] then [] else [b.pending]
  {}

  /** A reset forgets what was queued: what is received or queued later came later. */
  lemma ResetForgets(b: Box, run: seq<Action>)
    requires forall i | 0 <= i < |run| :: !run[i].Resets?
    ensures Flatten(Received(Step(b, Resets), run)) + After(Step(b, Resets), run).pending == Arrived(run)
  {
    hide Received, After, Arrived, Flatten;
    DeliveryConserves(Step(b, Resets), run);
  }

  // ---- the token bucket ------------------------------------------------------------

  /** Tokens spent, and refills that found the bucket not full, since it was last configured. */
  datatype Ledger = Ledger(spent: nat, refills: nat)

  function Tick(l: Ledger, b: Box): Ledger {
    if b.tokens > 0 then l.(spent := l.spent + 1) else l
  }

  function Entered(l: Ledger, b: Box, a: Action): Ledger {
    match a
    case Arrives(e) => if e.src.TokenTimer? && b.tokens < b.burst then l.(refills := l.refills + 1) else l
    case Acts => Tick(l, b)
    case SetBatchSize(_) => Tick(l, b)
    case SetBatchTimeout(ns, _) =>
      var dropped := if b.batchNs != 0 then Tick(l, b) else l;
      if ns == 0 then dropped else Tick(dropped, DropTimer(b, b.batchNs))
    case SetTokenBucket(rate, burst, _) =>
      if rate > BILLION then l else if rate == 0 || burst == 0 then Ledger(0, 0) else Ledger(1, 0)
    case Resets => Ledger(0, 0)
  }

  function Account(l: Ledger, b: Box, run: seq<Action>): Ledger
    decreases |run|
  {
    if run == [] then l else Account(Entered(l, b, run[0]), Step(b, run[0]), run[1..])
  }

  predicate Balanced(l: Ledger, b: Box) {
    b.tokens <= b.burst && b.tokens + l.spent == b.burst + l.refills
  }

  lemma BalancedStep(l: Ledger, b: Box, a: Action)
    requires Balanced(l, b)
    ensures Balanced(Entered(l, b, a), Step(b, a))
  {}

  /** In every run the bucket never overflows, and since its last configuration
      spent tokens = burst + effective refills - tokens left. */
  lemma {:induction false} BucketBalances(l: Ledger, b: Box, run: seq<Action>)
    requires Balanced(l, b)
    ensures Balanced(Account(l, b, run), After(b, run))
    decreases |run|
  {
    if run != [] {
      BalancedStep(l, b, run[0]);
      BucketBalances(Entered(l, b, run[0]), Step(b, run[0]), run[1..]);
    }
  }

  function Ticks(run: seq<Action>): nat {
    if run == [] then 0 else (if run[0].Arrives? && run[0].e.src.TokenTimer? then 1 else 0) + Ticks(run[1..])
  }

  predicate Reconfigures(a: Action) {
    a.Resets? || (a.SetTokenBucket? && a.rate <= BILLION)
  }

  /** From a configuration to the next, no more actions are accepted than the burst and the timer's
      ticks allow; and an action is refused exactly when that allowance is used up: when all that the
      effective refills granted is spent. */
  lemma RateIsLimited(run: seq<Action>, burst: nat, rate: nat, registers: bool, b: Box)
    requires 0 < rate <= BILLION && forall i | 0 <= i < |run| :: !Reconfigures(run[i])
    ensures var a := SetTokenBucket(rate, burst, registers);
            var l := Account(Entered(Ledger(0, 0), b, a), Step(b, a), run);
            && l.spent <= burst + Ticks(run)
            && (Answer(After(Step(b, a), run), Acts) == TryAgain <==> l.spent == burst + l.refills)
  {
    var a := SetTokenBucket(rate, burst, registers);
    var l := Entered(Ledger(0, 0), b, a);
    BucketBalances(l, Step(b, a), run);
    SameBurst(l, Step(b, a), run);
  }

  lemma {:induction false} SameBurst(l: Ledger, b: Box, run: seq<Action>)
    requires forall i | 0 <= i < |run| :: !Reconfigures(run[i])
    ensures After(b, run).burst == b.burst
    ensures l.refills <= Account(l, b, run).refills <= l.refills + Ticks(run)
    decreases |run|
  {
    if run != [] {
      SameBurst(Entered(l, b, run[0]), Step(b, run[0]), run[1..]);
    }
  }

  /** After a reset, or when the bucket is disabled, no action is refused after less than 2^63 calls; a
      call costs two tokens at most. */
  lemma Unlimited(b: Box, a: Action, run: seq<Action>)
    requires a.Resets? || (a.SetTokenBucket? && a.rate == 0)
    requires 2 * |run| < 0xFFFF_FFFF_FFFF_FFFF && forall i | 0 <= i < |run| :: !Reconfigures(run[i])
    ensures Answer(After(Step(b, a), run), Acts) == Done
  {
    Lasts(Step(b, a), run);
  }

  lemma {:induction false} Lasts(b: Box, run: seq<Action>)
    requires b.tokens > 2 * |run| && forall i | 0 <= i < |run| :: !Reconfigures(run[i])
    ensures After(b, run).tokens > 0
    decreases |run|
  {
    if run != [] {
      assert Step(b, run[0]).tokens >= b.tokens - 2;
      Lasts(Step(b, run[0]), run[1..]);
    }
  }

  /** A run up to the next configuration, in which the bucket's timer ticks only if there is one. */
  predicate Unconfigured(run: seq<Action>, timer: bool) {
    forall i | 0 <= i < |run| :: !Reconfigures(run[i]) && (run[i].Arrives? && run[i].e.src.TokenTimer? ==> timer)
  }

  lemma {:induction false} StaysEmpty(b: Box, run: seq<Action>, timer: bool)
    requires b.tokens == 0 && (b.burst == 0 || !timer) && Unconfigured(run, timer)
    ensures Answer(After(b, run), Acts) == TryAgain
    decreases |run|
  {
    if run != [] {
      StaysEmpty(Step(b, run[0]), run[1..], timer);
    }
  }

  predicate LetsAct(b: Box, run: seq<Action>, timer: bool) {
    Unconfigured(run, timer) && Answer(After(b, run), Acts) == Done
  }

  /** After a configuration some later action can be accepted exactly when the burst is not 0; and when
      the timer could not be registered, exactly when the burst is more than 1, because the attempt
      has cost a token. Otherwise the module is locked out until it is configured again or reset. */
  lemma BurstDecides(b: Box, rate: nat, burst: nat, registers: bool)
    requires 0 < rate <= BILLION
    ensures (exists run :: LetsAct(Step(b, SetTokenBucket(rate, burst, registers)), run, registers))
            <==> burst > if registers then 0 else 1
  {
    var b1 := Step(b, SetTokenBucket(rate, burst, registers));
    if burst > 1 {
      assert LetsAct(b1, [], registers);
    } else if burst == 1 && registers {
      var tick := Arrives(Evt(TokenTimer, 0));
      assert [tick][1..] == [];
      assert Answer(After(Step(b1, tick), []), Acts) == Done;
      assert LetsAct(b1, [tick], registers);
    } else {
      forall run
        ensures !LetsAct(b1, run, registers)
      {
        if Unconfigured(run, registers) {
          StaysEmpty(b1, run, registers);
        }
      }
    }
  }
}
