/** Which modules a message reaches, and as a match of which of their subscriptions. */
module PubSub {
  import opened Options
  import opened States

  type Topic = string

  /** A subscription is named by its topic, which is also its regular expression. */
  datatype Sub = Sub(topic: Topic, userdata: nat)

  datatype Msg = Msg(sender: nat, topic: Option<Topic>, payload: nat)

  /** A message as it is written to a module's pipe. */
  datatype Told = Told(msg: Msg, sub: Option<Sub>)

  /** What `regexec` decides: whether the expression (first) matches the topic. */
  type Regex = (Topic, Topic) -> bool

  const SYSTEM_PREFIX: Topic := "LIBMODULE_"
  const POISONPILL: Topic := "LIBMODULE_MOD_POISONPILL"

  /** `is_system_message` */
  predicate IsSystem(topic: Option<Topic>) {
    topic.Some? && SYSTEM_PREFIX <= topic.value
  }

  class Mod {
    const id: nat
    const denyPub: bool
    var tokens: nat
    var state: ModState
    var subs: map<Topic, Sub>
    var order: seq<Topic>  // in which the subscriptions are iterated
    var inbox: seq<Told>   // the pipe

    constructor (id: nat, denyPub: bool, tokens: nat)
      ensures this.id == id && this.denyPub == denyPub && this.tokens == tokens
      ensures state == Idle && subs == map[] && order == [] && inbox == []
      ensures Valid()
    {
      this.id, this.denyPub, this.tokens := id, denyPub, tokens;
      state, subs, order, inbox := Idle, map[], [], [];
    }

    /** Iteration visits every subscription (see MapIteration). */
    ghost predicate Valid()
      reads this
    {
      && (forall t | t in subs :: subs[t].topic == t && t in order)
      && (forall t | t in order :: t in subs)
    }

    predicate Awake()
      reads this
    {
      state == Running || state == Paused
    }

    ghost predicate Subscribed(topic: Topic, re: Regex)
      reads this
    {
      topic in subs || exists t | t in subs :: re(t, topic)
    }

    /** The subscription that a message on the topic is a match of. */
    ghost predicate Matched(topic: Topic, re: Regex, sub: Sub)
      reads this
    {
      && sub.topic in subs && subs[sub.topic] == sub
      && (topic in subs ==> sub == subs[topic])
      && (topic !in subs ==> re(sub.topic, topic))
    }

    /** `fetch_sub`: the subscription to that very topic, or else the first whose expression matches. */
    method FetchSub(topic: Topic, re: Regex) returns (r: Option<Sub>)
      requires Valid()
      ensures r.Some? <==> Subscribed(topic, re)
      ensures r.None? <==> topic !in subs && forall t | t in subs :: !re(t, topic)
      ensures r.Some? ==> Matched(topic, re, r.value)
      ensures topic in subs ==> r == Some(subs[topic])
      ensures r.Some? && topic !in subs ==>
                exists i | 0 <= i < |order| ::
                  order[i] == r.value.topic && forall j | 0 <= j < i :: !re(order[j], topic)
    {
      if topic in subs {
        return Some(subs[topic]);
      }
      for i := 0 to |order|
        invariant forall j | 0 <= j < i :: !re(order[j], topic)
      {
        if re(order[i], topic) {
          return Some(subs[order[i]]);
        }
      }
      return None;
    }

    /** `tell_if` */
    method TellIf(msg: Msg, sub: Option<Sub>)
      modifies `inbox
      ensures inbox == old(inbox) + if state in {Running, Paused} && (msg.topic.None? || sub.Some?)
                                    then [Told(msg, if msg.topic.Some? then sub else None)] else []
    {
      var s := if msg.topic.Some? then sub else None;
      if Awake() && (msg.topic.None? || s.Some?) {
        inbox := inbox + [Told(msg, s)];
      }
    }
  }

  /** Whether a module is to get a message that is sent to nobody in particular. */
  ghost predicate Hears(m: Mod, msg: Msg, re: Regex)
    reads m
  {
    m.Awake() && (msg.topic.Some? ==> m.Subscribed(msg.topic.value, re))
  }

  ghost predicate WellTagged(m: Mod, told: Told, msg: Msg, re: Regex)
    reads m
  {
    && told.msg == msg && (msg.topic.None? <==> told.sub.None?)
    && (msg.topic.Some? ==> told.sub.Some? && m.Matched(msg.topic.value, re, told.sub.value))
  }

  /** One message more for a module that hears it, and none for one that does not. */
  ghost predicate Served(m: Mod, before: seq<Told>, msg: Msg, re: Regex)
    reads m
  {
    && (Hears(m, msg, re) ==> |m.inbox| == |before| + 1 && m.inbox[..|before|] == before)
    && (Hears(m, msg, re) ==> WellTagged(m, m.inbox[|before|], msg, re))
    && (!Hears(m, msg, re) ==> m.inbox == before)
  }

  class Context {
    var modules: seq<Mod>  // in the order of iteration

    ghost predicate Valid()
      reads this, modules
    {
      && (forall i | 0 <= i < |modules| :: modules[i].Valid())
      && (forall i, j | 0 <= i < j < |modules| :: modules[i] != modules[j])
    }

    ghost function Receivers(): set<Mod>
      reads this
    {
      set m | m in modules
    }

    /** `tell_subscribers` */
    method TellSubscribers(msg: Msg, re: Regex)
      requires Valid() && msg.topic.Some?
      modifies Receivers()`inbox
      ensures Valid() && forall m | m in modules :: Served(m, old(m.inbox), msg, re)
    {
      for i := 0 to |modules|
        invariant Valid()
        invariant forall j | 0 <= j < i :: Served(modules[j], old(modules[j].inbox), msg, re)
        invariant forall j | i <= j < |modules| :: modules[j].inbox == old(modules[j].inbox)
      {
        var m := modules[i];
        if m.Awake() {
          var sub := m.FetchSub(msg.topic.value, re);
          if sub.Some? {
            m.TellIf(msg, sub);
          }
        }
      }
    }

    /** `m_map_iterate` with `tell_if` */
    method Broadcast(msg: Msg, re: Regex)
      requires Valid() && msg.topic.None?
      modifies Receivers()`inbox
      ensures Valid() && forall m | m in modules :: Served(m, old(m.inbox), msg, re)
    {
      for i := 0 to |modules|
        invariant Valid()
        invariant forall j | 0 <= j < i :: Served(modules[j], old(modules[j].inbox), msg, re)
        invariant forall j | i <= j < |modules| :: modules[j].inbox == old(modules[j].inbox)
      {
        modules[i].TellIf(msg, None);
      }
    }

    /** `tell_pubsub_msg`: a direct message reaches its recipient alone, and reaches it exactly when the
        recipient is running or paused and the message has no topic. */
    method TellPubSubMsg(msg: Msg, recipient: Mod?, re: Regex)
      requires Valid()
      modifies (Receivers() + if recipient == null then {} else {recipient})`inbox
      ensures Valid()
      ensures recipient == null ==> forall m | m in modules :: Served(m, old(m.inbox), msg, re)
      ensures recipient != null && recipient.state in {Running, Paused} && msg.topic.None? ==>
                recipient.inbox == old(recipient.inbox) + [Told(msg, None)]
      ensures recipient != null && !(recipient.state in {Running, Paused} && msg.topic.None?) ==>
                recipient.inbox == old(recipient.inbox)
      ensures recipient != null ==> forall m | m in modules && m != recipient :: m.inbox == old(m.inbox)
    {
      if recipient != null {
        recipient.TellIf(msg, None);
      } else if msg.topic.None? {
        Broadcast(msg, re);
      } else {
        TellSubscribers(msg, re);
      }
    }

    /** The guards that the calls below share */
    method Allowed(sender: Mod, other: bool) returns (r: Outcome)
      modifies sender`tokens
      ensures r == if sender.state == Zombie then NoAccess else if sender.denyPub then NotPermitted
                   else if !other then NotPermitted else if old(sender.tokens) == 0 then TryAgain else Done
      ensures sender.tokens == old(sender.tokens) - if r == Done then 1 else 0
    {
      if sender.state == Zombie {
        return NoAccess;
      }
      if sender.denyPub || !other {
        return NotPermitted;
      }
      if sender.tokens == 0 {
        return TryAgain;
      }
      sender.tokens := sender.tokens - 1;
      return Done;
    }

    /** `m_mod_ps_publish`: a message on a topic, or without one to everybody; not on the library's own
        topics, which are those that start with its prefix. Running and paused modules get it once each
        when they have subscribed to the topic or to an expression that matches it. */
    method Publish(sender: Mod, topic: Option<Topic>, payload: nat, re: Regex) returns (r: Outcome)
      requires Valid()
      modifies sender`tokens, Receivers()`inbox
      ensures Valid()
      ensures r == old(if sender.state == Zombie then NoAccess
                       else if sender.denyPub || (topic.Some? && "LIBMODULE_" <= topic.value) then NotPermitted
                       else if sender.tokens == 0 then TryAgain else Done)
      ensures r == Done ==> forall m | m in modules :: Served(m, old(m.inbox), Msg(sender.id, topic, payload), re)
      ensures r == Done ==> forall m | m in modules && m.state in {Running, Paused} ::
                (topic.None? ==> m.inbox == old(m.inbox) + [Told(Msg(sender.id, None, payload), None)])
      ensures r == Done && topic.Some? ==> forall m | m in modules && m.state in {Running, Paused} ::
                (topic.value in m.subs || exists t | t in m.subs :: re(t, topic.value)) ==>
                  && |m.inbox| == |old(m.inbox)| + 1 && m.inbox[..|old(m.inbox)|] == old(m.inbox)
                  && m.inbox[|old(m.inbox)|].msg == Msg(sender.id, topic, payload)
                  && m.inbox[|old(m.inbox)|].sub.Some? && m.inbox[|old(m.inbox)|].sub.value in m.subs.Values
      ensures r == Done && topic.Some? ==> forall m | m in modules ::
                topic.value !in m.subs && (forall t | t in m.subs :: !re(t, topic.value)) ==> m.inbox == old(m.inbox)
      ensures forall m | m in modules && m.state !in {Running, Paused} :: m.inbox == old(m.inbox)
      ensures r != Done ==> forall m | m in modules :: m.inbox == old(m.inbox)
      ensures sender.tokens == old(sender.tokens) - if r == Done then 1 else 0
    {
      r := Allowed(sender, !IsSystem(topic));
      if r == Done {
        TellPubSubMsg(Msg(sender.id, topic, payload), null, re);
      }
    }

    /** `m_mod_ps_tell` */
    method Tell(sender: Mod, recipient: Mod, payload: nat, re: Regex) returns (r: Outcome)
      requires Valid()
      modifies sender`tokens, (Receivers() + {recipient})`inbox
      ensures Valid()
      ensures r == old(if sender.state == Zombie then NoAccess else if sender.denyPub then NotPermitted
                       else if sender.tokens == 0 then TryAgain else Done)
      ensures recipient.inbox == old(recipient.inbox) +
              if r == Done && recipient.state in {Running, Paused}
              then [Told(Msg(sender.id, None, payload), None)] else []
      ensures forall m | m in modules && m != recipient :: m.inbox == old(m.inbox)
      ensures sender.tokens == old(sender.tokens) - if r == Done then 1 else 0
    {
      r := Allowed(sender, true);
      if r == Done {
        TellPubSubMsg(Msg(sender.id, None, payload), recipient, re);
      }
    }

    /** `m_mod_ps_poisonpill`: the call succeeds and costs a token, but because the pill travels under a
        topic and to nobody's subscription, it is never written to the recipient. */
    method PoisonPill(sender: Mod, recipient: Mod, re: Regex) returns (r: Outcome)
      requires Valid()
      modifies sender`tokens, (Receivers() + {recipient})`inbox
      ensures Valid()
      ensures r == old(if sender.state == Zombie then NoAccess else if sender.denyPub then NotPermitted
                       else if recipient.state != Running then Invalid
                       else if sender.tokens == 0 then TryAgain else Done)
      ensures recipient.inbox == old(recipient.inbox) && forall m | m in modules :: m.inbox == old(m.inbox)
      ensures sender.tokens == old(sender.tokens) - if r == Done then 1 else 0
    {
      if sender.state != Zombie && !sender.denyPub && recipient.state != Running {
        return Invalid;
      }
      r := Allowed(sender, true);
      if r == Done {
        TellPubSubMsg(Msg(sender.id, Some(POISONPILL), 0), recipient, re);
      }
    }
  }
}
