/** The channel as pkg/subscription/subscription_impl/chan.go keeps it. The sequence store's answer and the message
    store's verdict are parameters of the calls that ask for them; a receive from the queue is one pump step. */
module Channels {
  import opened Options
  import opened SeqAlloc
  import opened ChannelSpec

  class Channel {
    const ticket: TicketFn

    var seqNo: int
    var seqRemain: int
    var messages: seq<Message>
    var messagesClosed: bool
    var queued: int
    var subscribers: map<SubId, int>
    var muted: bool
    var blocked: bool
    var closed: bool
    var secret: string

    /** What the message store and the gateway have been handed. */
    var stored: seq<Message>
    var pushes: seq<Push>

    ghost var accepted: seq<Message>
    ghost var frontier: int

    ghost function Abs(): Chan
      reads this
    {
      Chan(Alloc(seqNo, seqRemain), messages, messagesClosed, subscribers, Info(muted, blocked, closed, secret),
           stored, pushes, accepted, frontier)
    }

    constructor (fn: TicketFn, start: int, length: int)
      ensures Abs() == New(start, length) && queued == 0 && ticket == fn
    {
      ticket := fn;
      messages, messagesClosed, queued, subscribers := [], false, 0, map[];
      muted, blocked, closed, secret := false, false, false, "";
      stored, pushes, accepted, frontier := [], [], [], start + length;
      new;
      LoadSeq(start, length);
    }

    method LoadSeq(start: int, length: int)
      modifies this`seqNo, this`seqRemain
      ensures seqNo == start && seqRemain == length
    {
      seqRemain := length;
      seqNo := start;
    }

    /** `nextSeq` */
    method NextSeq(grant: Grant) returns (r: Option<int>)
      modifies this`seqNo, this`seqRemain, this`frontier
      ensures (Alloc(seqNo, seqRemain), r) == Next(old(Alloc(seqNo, seqRemain)), grant)
      ensures frontier == Frontier(old(Abs()), grant)
    {
      seqRemain := seqRemain - 1;
      if seqRemain <= 0 {
        if grant.Failed? {
          return None;
        }
        LoadSeq(grant.start, grant.length);
        frontier := grant.start + grant.length;
        seqNo := seqNo - 1;
      }
      seqNo := seqNo + 1;
      r := Some(seqNo);
    }

    /** The non-blocking send both enqueue methods end with. */
    method Send(m: Message) returns (r: Result)
      requires queued == |messages|
      modifies this`messages, this`queued, this`accepted
      ensures (Abs(), r) == ChannelSpec.Enqueue(old(Abs()), m) && queued == |messages|
    {
      if messagesClosed {
        return Panic;
      }
      if |messages| >= QUEUE_CAPACITY {
        return QueueFull;
      }
      messages := messages + [m];
      accepted := accepted + [m];
      queued := queued + 1;
      r := Ok;
    }

    /** `getSubscriberOptions` comes first; on nil it asks for the name of the type of nothing. */
    method Subscribe(id: SubId, options: Arg<SubscriberOptions>) returns (r: Result)
      requires queued == |messages|
      modifies this`messages, this`queued, this`accepted, this`subscribers
      ensures (Abs(), r) == ChannelSpec.Step(ticket, old(Abs()), ChannelSpec.Subscribe(id, options))
      ensures queued == |messages|
    {
      if !options.Given? && !options.NilPointer? {
        return if options.Nil? then Panic else BadOptions;
      }
      if closed {
        return ChannelClosed;
      }
      if blocked {
        return ChannelBlocked;
      }
      if options.NilPointer? {
        return Panic;
      }
      var so := options.value;
      if id in subscribers {
        subscribers := subscribers[id := so.perm];
        return Ok;
      }
      if |secret| != 0 {
        if |so.ticket| == 0 {
          return InvalidTicket;
        }
        if ticket(so.perm, id, secret) != so.ticket {
          return InvalidTicket;
        }
      }
      subscribers := subscribers[id := so.perm];
      r := Send(Announce(id, "online "));
      if r == Panic {
        return;
      }
      r := Send(Roster(id, subscribers.Keys));
      if r == Panic {
        return;
      }
      r := Ok;
    }

    method Unsubscribe(id: SubId) returns (r: Result)
      requires queued == |messages|
      modifies this`messages, this`queued, this`accepted, this`subscribers
      ensures (Abs(), r) == ChannelSpec.Step(ticket, old(Abs()), ChannelSpec.Unsubscribe(id)) && queued == |messages|
    {
      if id !in subscribers {
        return NotSubscribed;
      }
      subscribers := subscribers - {id};
      r := Send(Announce(id, "offline "));
      if r == Panic {
        return;
      }
      r := Ok;
    }

    method Update(ci: Option<Info>) returns (r: Result)
      modifies this`muted, this`blocked, this`secret
      ensures (Abs(), r) == ChannelSpec.Step(ticket, old(Abs()), ChannelSpec.Update(ci))
    {
      if ci.None? {
        return Panic;
      }
      blocked := ci.value.blocked;
      muted := ci.value.muted;
      secret := ci.value.secret;
      r := Ok;
    }

    method Publish(msg: Arg<Message>, grant: Grant, storeOk: bool) returns (r: Result)
      requires queued == |messages|
      modifies this`messages, this`queued, this`accepted, this`seqNo, this`seqRemain, this`frontier, this`stored
      ensures (Abs(), r) == ChannelSpec.Step(ticket, old(Abs()), ChannelSpec.Publish(msg, grant, storeOk))
      ensures queued == |messages|
    {
      hide Allows, ChannelSpec.Enqueue, DoEnqueue;
      if closed {
        return ChannelClosed;
      }
      if !msg.Given? {
        return if msg.Foreign? then BadMessage else Panic;
      }
      var m := msg.value;
      if !(TYPE_UNKNOWN < m.kind <= TYPE_SYSTEM) {
        return UnknownType;
      }
      if m.from !in subscribers {
        return NotMember;
      }
      var s := subscribers[m.from];
      if !Allows(s, MASK_WRITE) {
        return NoWrite;
      }
      if muted {
        if !Allows(s, MASK_SYSTEM) || !Allows(s, MASK_ADMIN) {
          return Muted;
        }
      }
      if blocked {
        if !Allows(s, MASK_SYSTEM) {
          return ChannelBlocked;
        }
      }
      if m.kind == TYPE_NOTIFY {
        r := Send(m);
      } else if m.kind == TYPE_MESSAGE {
        r := Enqueue(m, grant, storeOk);
      } else {
        r := UnknownType;
      }
    }

    /** `enqueue`; what it writes into the message does not decode again. */
    method Enqueue(m: Message, grant: Grant, storeOk: bool) returns (r: Result)
      requires queued == |messages|
      modifies this`messages, this`queued, this`accepted, this`seqNo, this`seqRemain, this`frontier, this`stored
      ensures (Abs(), r) == DoEnqueue(old(Abs()), m, grant, storeOk) && queued == |messages|
    {
      hide Next, Frontier;
      if m.body.Missing? {
        return Panic;
      }
      if !m.body.Chat? {
        return BadBody;
      }
      var n := NextSeq(grant);
      if n.None? {
        return NoSequence;
      }
      var numbered := m.(seqNo := n.value, body := Boxed(m.body.text, n.value));
      if !storeOk {
        return StoreError;
      }
      stored := stored + [numbered];
      r := Send(numbered);
    }

    /** The receive of the queue loop: the head is taken and pushed. */
    method Pump() returns (r: Result)
      requires queued == |messages|
      modifies this`messages, this`queued, this`pushes
      ensures (Abs(), r) == ChannelSpec.Step(ticket, old(Abs()), ChannelSpec.Pump) && queued == |messages|
    {
      r := Ok;
      if messages == [] {
        return;
      }
      var m := messages[0];
      messages := messages[1..];
      queued := queued - 1;
      var to := Recipients(m);
      pushes := pushes + [Push(m, to)];
    }

    /** The loop of `push`, over the subscribers in any order. */
    method Recipients(m: Message) returns (sent: set<SubId>)
      ensures sent == Audience(subscribers, m)
    {
      hide Allows;
      sent := {};
      var todo := subscribers.Keys;
      while todo != {}
        invariant todo <= subscribers.Keys
        invariant forall id :: id in sent <==>
          id in subscribers && id !in todo && Allows(subscribers[id], MASK_READ) && (m.to == [] || id in m.to)
        decreases todo
      {
        var id :| id in todo;
        todo := todo - {id};
        if m.to != [] && id !in m.to {
          continue;
        }
        if !Allows(subscribers[id], MASK_READ) {
          continue;
        }
        sent := sent + {id};
      }
    }

    method Close() returns (r: Result)
      modifies this`closed, this`messagesClosed, this`subscribers
      ensures (Abs(), r) == ChannelSpec.Step(ticket, old(Abs()), ChannelSpec.Close)
    {
      closed := true;
      if messagesClosed {
        return Panic;
      }
      messagesClosed := true;
      subscribers := map[];
      r := Ok;
    }
  }

  /** Any history of calls on a fresh channel: what the gateway and the message store were handed is what the state
      machine says. If the sequence store only moves forward, everybody receives chat messages in increasing order,
      all of them stored before. */
  method RunAll(t: TicketFn, start: int, length: int, ops: seq<Op>) returns (pushes: seq<Push>, stored: seq<Message>)
    ensures pushes == ChannelSpec.Run(t, New(start, length), ops).pushes
    ensures stored == ChannelSpec.Run(t, New(start, length), ops).stored
    ensures length >= 1 && LegalRun(t, New(start, length), ops) ==>
              forall id: SubId :: ChatIncreasing(ReceivedBy(pushes, id))
                                  && forall m <- ReceivedBy(pushes, id) :: IsChat(m) ==> m in stored
  {
    hide ChannelSpec.Step, ChatIncreasing, LegalRun;
    var c := new Channel(t, start, length);
    for i := 0 to |ops|
      invariant c.ticket == t && c.queued == |c.messages|
      invariant c.Abs() == ChannelSpec.Run(t, New(start, length), ops[..i])
    {
      assert ops[..i + 1][..i] == ops[..i] && ops[..i + 1][i] == ops[i];
      match ops[i]
      case Subscribe(id, options) => var _ := c.Subscribe(id, options);
      case Unsubscribe(id) => var _ := c.Unsubscribe(id);
      case Update(ci) => var _ := c.Update(ci);
      case Publish(m, grant, storeOk) => var _ := c.Publish(m, grant, storeOk);
      case Pump => var _ := c.Pump();
      case Close => var _ := c.Close();
    }
    assert ops[..|ops|] == ops;
    pushes, stored := c.pushes, c.stored;
    if length >= 1 && LegalRun(t, New(start, length), ops) {
      forall id: SubId
        ensures ChatIncreasing(ReceivedBy(pushes, id))
        ensures forall m <- ReceivedBy(pushes, id) :: IsChat(m) ==> m in stored
      {
        Ordering(t, start, length, ops, id);
      }
    }
  }
}
